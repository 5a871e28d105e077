/**
What startup recovery does to one table incarnation: its buffer, its sidecar and
the appends it publishes. The buffer operations are those of
crates/teodb-ingest/src/buffer/table.rs, the flush that of
crates/teodb-ingest/src/flush/mod.rs and flush/commit.rs, and the sidecar rules
those of crates/teodb-storage/src/wal/prepared.rs. What storage and the catalog
answer is a parameter.
*/
module TableRecovery {
  import opened Wrappers
  import opened WriteProtocol

  const GENERATION_MAX: nat := 0xFFFF_FFFF_FFFF_FFFF

  datatype TableKey = TableKey(uuid: Uuid, ident: string)

  // A decoded WAL append.
  datatype Record = Record(
    key: TableKey, batch: nat, generation: nat, idem: Option<string>, rows: nat, bytes: nat)

  // A prepared flush, as far as recovery looks at it.
  datatype Intent = Intent(key: TableKey, gens: GenerationRange, commit: Uuid)

  datatype FlushState = Idle | Prepared(intent: Intent) | Blocked(intent: Intent)

  datatype Buffer = Buffer(pending: seq<Record>, inFlight: seq<Record>, highWater: nat, flush: FlushState)

  // An append proven to be in the catalog, with the records the buffer gave up for it.
  datatype Append = Append(gens: GenerationRange, records: seq<Record>)

  // A flush that drained `records`: the intent unresolved at that time, and whether
  // the catalog was contacted.
  datatype FlushAttempt = FlushAttempt(records: seq<Record>, intent: Option<Intent>, reached: bool)

  datatype Table = Table(
    buffer: Option<Buffer>,
    sidecar: Option<Intent>,     // on disk
    unresolved: Option<Intent>,  // this table's entry in `prepared_by_uuid`
    hidden: Option<Intent>,      // in the catalog, although recovery has no proof of it
    published: seq<Append>,
    flushes: seq<FlushAttempt>)

  datatype CommitAnswer =
    | Publishes(removed: bool)   // and whether the sidecar could then be removed
    | Keeps                      // ambiguous or retryable: the intent stays prepared
    | Returns                    // definitely rejected: the rows go back to pending
    | Blocks

  datatype FlushAnswer = WriteFails | PersistFails | Commits(commit: Uuid, answer: CommitAnswer)

  datatype FlushResult = Empty | Committed | Failed

  datatype ResolveAnswer =
    | Invalid                    // the sidecar fails semantic validation
    | Proven(removed: bool)      // found by the status check or published by the retry
    | Contained(inCatalog: bool) // any other outcome, and whether the append is in the catalog after all

  function Bytes(s: seq<Record>): nat {
    if s == [] then 0 else Bytes(s[..|s| - 1]) + s[|s| - 1].bytes
  }

  function MinGen(s: seq<Record>): nat
    requires s != []
  {
    if |s| == 1 then s[0].generation
    else if s[0].generation < MinGen(s[1..]) then s[0].generation else MinGen(s[1..])
  }

  function MaxGen(s: seq<Record>): nat
    requires s != []
  {
    if |s| == 1 then s[0].generation
    else if s[0].generation > MaxGen(s[1..]) then s[0].generation else MaxGen(s[1..])
  }

  function RangeOf(s: seq<Record>): GenerationRange
    requires s != []
  {
    GenerationRange(MinGen(s), MaxGen(s))
  }

  lemma {:induction false} RangeOfBounds(s: seq<Record>)
    requires s != []
    ensures exists r | r in s :: r.generation == RangeOf(s).lo
    ensures exists r | r in s :: r.generation == RangeOf(s).hi
    ensures forall r | r in s :: Contains(RangeOf(s), r.generation)
  {
    assert s == [s[0]] + s[1..];
    if |s| > 1 {
      RangeOfBounds(s[1..]);
    }
  }

  /** The records inside (or outside) a range, in order. */
  function Split(s: seq<Record>, range: GenerationRange, inside: bool): seq<Record> {
    if s == [] then []
    else
      var head := Split(s[..|s| - 1], range, inside);
      if Contains(range, s[|s| - 1].generation) == inside then head + [s[|s| - 1]] else head
  }

  lemma {:induction false} SplitMembers(s: seq<Record>, range: GenerationRange, inside: bool)
    ensures forall r :: r in Split(s, range, inside) <==> r in s && Contains(range, r.generation) == inside
  {
    if s != [] {
      SplitMembers(s[..|s| - 1], range, inside);
      assert s == s[..|s| - 1] + [s[|s| - 1]];
    }
  }

  lemma {:induction false} SplitIsPartition(s: seq<Record>, range: GenerationRange)
    ensures multiset(Split(s, range, true)) + multiset(Split(s, range, false)) == multiset(s)
  {
    if s != [] {
      SplitIsPartition(s[..|s| - 1], range);
      assert s == s[..|s| - 1] + [s[|s| - 1]];
    }
  }

  /** The intent's delayed original lands after the checkpoint was read. */
  predicate LandsLate(sidecar: Option<Intent>, checkpoint: nat, landed: bool) {
    landed && sidecar.Some? && sidecar.value.gens.hi > checkpoint
  }

  /** `get_or_load`: a new buffer starts at the writer's checkpoint, which has moved
      past the one read earlier if the intent's delayed original has landed since. */
  function LoadBuffer(t: Table, checkpoint: nat, landed: bool): Table {
    if t.buffer.Some? then t
    else if LandsLate(t.sidecar, checkpoint, landed) then
      t.(buffer := Some(Buffer([], [], t.sidecar.value.gens.hi, Idle)), hidden := t.sidecar)
    else t.(buffer := Some(Buffer([], [], checkpoint, Idle)))
  }

  predicate Fits(b: Buffer, r: Record, maxBytes: nat) {
    Bytes(b.pending) + Bytes(b.inFlight) + r.bytes <= maxBytes
  }

  predicate UsableGeneration(r: Record) {
    r.generation != 0 && r.generation != GENERATION_MAX
  }

  function Insert(t: Table, r: Record): Table
    requires t.buffer.Some?
  {
    t.(buffer := Some(t.buffer.value.(pending := t.buffer.value.pending + [r])))
  }

  /** `commit_prepared`: persist the sidecar, then ask the catalog. The catalog's write
      guard refuses a range that does not lie above the writer's checkpoint. */
  function CommitPrepared(t: Table, intent: Intent, a: FlushAnswer): (r: (Table, FlushResult))
    requires t.buffer.Some?
    ensures r.0.buffer.Some? && r.0.unresolved == t.unresolved
  {
    var b := t.buffer.value;
    if !a.Commits? || (t.sidecar.Some? && t.sidecar.value != intent) then
      (t.(flushes := t.flushes + [FlushAttempt(b.inFlight, t.unresolved, false)]), Failed)
    else
      var t := t.(sidecar := Some(intent), flushes := t.flushes + [FlushAttempt(b.inFlight, t.unresolved, true)]);
      match a.answer
      case Publishes(removed) =>
        if intent.gens.lo <= b.highWater then (t.(buffer := Some(b.(flush := Blocked(intent)))), Failed)
        else (t.(buffer := Some(b.(inFlight := [], highWater := intent.gens.hi, flush := Idle)),
                 sidecar := if removed then None else t.sidecar,
                 published := t.published + [Append(intent.gens, b.inFlight)]), Committed)
      case Keeps => (t, Failed)
      case Returns =>
        (t.(buffer := Some(b.(pending := b.inFlight + b.pending, inFlight := [], flush := Idle)), sidecar := None),
         Failed)
      case Blocks => (t.(buffer := Some(b.(flush := Blocked(intent)))), Failed)
  }

  /** `flush_once_inner`. */
  function Flush(t: Table, key: TableKey, a: FlushAnswer): (r: (Table, FlushResult))
    requires t.buffer.Some?
    ensures r.0.buffer.Some? && r.0.unresolved == t.unresolved
  {
    var b := t.buffer.value;
    if b.flush.Blocked? then (t, Failed)
    else if b.flush.Prepared? then CommitPrepared(t, b.flush.intent, a)
    else
      var drained := if b.inFlight != [] then b else b.(pending := [], inFlight := b.pending);
      if drained.inFlight == [] then (t, Empty)
      else if a.WriteFails? then
        (t.(buffer := Some(drained.(pending := drained.inFlight + drained.pending, inFlight := [])),
            flushes := t.flushes + [FlushAttempt(drained.inFlight, t.unresolved, false)]), Failed)
      else
        var commit := if a.Commits? then a.commit else NIL;
        var intent := Intent(key, RangeOf(drained.inFlight), commit);
        CommitPrepared(t.(buffer := Some(drained.(flush := Prepared(intent)))), intent, a)
  }

  /** `restore_prepared`: reclaim exactly the intent's range, or nothing if the
      checkpoint already covers it. */
  function Restore(b: Buffer, intent: Intent): Option<Buffer> {
    var restored := Split(b.pending, intent.gens, true);
    if b.inFlight != [] then None
    else if intent.gens.hi <= b.highWater then Some(b.(flush := Prepared(intent)))
    else if restored == [] || RangeOf(restored) != intent.gens then None
    else Some(b.(pending := Split(b.pending, intent.gens, false), inFlight := restored, flush := Prepared(intent)))
  }

  /** `resolve_prepared` and `complete_prepared`; the flag says whether recovery goes on. */
  function Resolve(t: Table, intent: Intent, a: ResolveAnswer): (Table, bool)
    requires t.buffer.Some?
  {
    var restored := Restore(t.buffer.value, intent);
    if a.Invalid? || restored.None? then (t, false)
    else
      var b := restored.value;
      match a
      case Proven(removed) =>
        var highWater := if intent.gens.hi > b.highWater then intent.gens.hi else b.highWater;
        (t.(buffer := Some(b.(inFlight := [], highWater := highWater, flush := Idle)),
            published := t.published + [Append(intent.gens, b.inFlight)], hidden := None,
            sidecar := if removed then None else t.sidecar), removed)
      case Contained(inCatalog) =>
        (t.(buffer := Some(b.(flush := Blocked(intent))), hidden := if inCatalog then Some(intent) else t.hidden),
         true)
  }

  // ----- What recovery keeps about a table -----

  ghost function Buffered(t: Table): seq<Record> {
    if t.buffer.None? then [] else t.buffer.value.inFlight + t.buffer.value.pending
  }

  ghost function Given(published: seq<Append>): seq<Record> {
    if published == [] then []
    else Given(published[..|published| - 1]) + published[|published| - 1].records
  }

  ghost predicate Covered(published: seq<Append>, r: Record) {
    exists a | a in published :: Contains(a.gens, r.generation)
  }

  /** An append for which the buffer gave up nothing: the catalog held it before the
      buffer was loaded. */
  ghost predicate FoundPublished(a: Append) {
    a.records == []
  }

  ghost predicate StrictlyIncreasing(s: seq<Record>) {
    forall i, j | 0 <= i < j < |s| :: s[i].generation < s[j].generation
  }

  /** Every replayed record is in the buffer or was given up for one append. */
  ghost predicate Conserved(buffered: seq<Record>, published: seq<Append>, done: seq<Record>) {
    multiset(buffered) + multiset(Given(published)) == multiset(done)
  }

  /** Between records a table is idle or blocked, and idle means nothing in flight. */
  ghost predicate Settled(t: Table) {
    && (t.buffer.None? ==> t.published == [] && t.sidecar == t.unresolved && t.hidden.None?)
    && (t.buffer.Some? ==> !t.buffer.value.flush.Prepared?)
    && (t.buffer.Some? && t.buffer.value.flush.Idle? ==> t.buffer.value.inFlight == [])
  }

  /** An unresolved intent still owns the sidecar, and nothing has been published. */
  ghost predicate IntentUntouched(t: Table) {
    t.unresolved.Some? ==>
      && t.sidecar == t.unresolved && t.published == []
      && (t.buffer.Some? ==> t.buffer.value.flush.Idle?)
  }

  /** An append without proof is the unresolved intent's, or the table is blocked on it. */
  ghost predicate HiddenContained(t: Table) {
    t.hidden.Some? ==>
      && t.published == []
      && (t.unresolved == t.hidden || (t.buffer.Some? && t.buffer.value.flush == Blocked(t.hidden.value)))
  }

  /** Appends lie one above the other, at or below the high-water mark, and the
      records given up for an append are in its range. */
  ghost predicate AppendsOrdered(published: seq<Append>, highWater: nat) {
    && (forall i, j | 0 <= i < j < |published| :: published[i].gens.hi < published[j].gens.lo)
    && (forall i | 0 <= i < |published| :: published[i].gens.hi <= highWater)
    && (forall i, r | 0 <= i < |published| && r in published[i].records ::
          Contains(published[i].gens, r.generation))
  }

  /** A buffered record is in no append's range, except one found published. */
  ghost predicate BufferedUncovered(buffered: seq<Record>, published: seq<Append>) {
    forall i, r | 0 <= i < |published| && r in buffered && Contains(published[i].gens, r.generation) ::
      FoundPublished(published[i])
  }

  /** An append found published leaves all records of its range in the buffer. */
  ghost predicate KeptBack(buffered: seq<Record>, published: seq<Append>, done: seq<Record>) {
    forall i, r | 0 <= i < |published| && r in done && Contains(published[i].gens, r.generation) ::
      FoundPublished(published[i]) ==> r in buffered
  }

  ghost predicate TableInv(t: Table, done: seq<Record>) {
    && StrictlyIncreasing(done)
    && Conserved(Buffered(t), t.published, done)
    && Settled(t)
    && IntentUntouched(t)
    && HiddenContained(t)
    && (t.buffer.Some? ==> AppendsOrdered(t.published, t.buffer.value.highWater))
    && BufferedUncovered(Buffered(t), t.published)
    && KeptBack(Buffered(t), t.published, done)
  }

  /** The part of the invariant about what is where. */
  ghost predicate ContentsOk(buffered: seq<Record>, published: seq<Append>, highWater: nat, done: seq<Record>) {
    && StrictlyIncreasing(done) && Conserved(buffered, published, done) && AppendsOrdered(published, highWater)
    && BufferedUncovered(buffered, published) && KeptBack(buffered, published, done)
  }

  lemma AssembleInv(t: Table, done: seq<Record>, buffered: seq<Record>, published: seq<Append>, highWater: nat)
    requires Settled(t) && IntentUntouched(t) && HiddenContained(t) && t.buffer.Some?
    requires Buffered(t) == buffered && t.published == published && t.buffer.value.highWater == highWater
    requires ContentsOk(buffered, published, highWater, done)
    ensures TableInv(t, done)
  {
  }

  /** No append reaches above the records handled so far. */
  ghost predicate NotAhead(published: seq<Append>, done: seq<Record>) {
    forall i | 0 <= i < |published| :: done != [] && published[i].gens.hi <= done[|done| - 1].generation
  }

  ghost predicate BelowIntent(f: FlushAttempt) {
    f.intent.Some? ==> !f.reached && forall r | r in f.records :: r.generation < f.intent.value.gens.lo
  }

  /** A flush issued while an intent is unresolved drained only generations below the
      intent's range, and never reached the catalog. */
  ghost predicate FlushesBelow(flushes: seq<FlushAttempt>) {
    forall i | 0 <= i < |flushes| :: BelowIntent(flushes[i])
  }

  lemma BufferedIsDone(buffered: seq<Record>, published: seq<Append>, done: seq<Record>, r: Record)
    requires Conserved(buffered, published, done) && r in buffered
    ensures r in done
  {
    assert r in multiset(buffered) + multiset(Given(published));
    assert r in multiset(done);
  }

  lemma {:induction false} GivenIn(published: seq<Append>, r: Record)
    ensures r in Given(published) <==> exists a | a in published :: r in a.records
  {
    if published != [] {
      GivenIn(published[..|published| - 1], r);
      assert published == published[..|published| - 1] + [published[|published| - 1]];
    }
  }

  lemma {:induction false} GivenGrows(published: seq<Append>, a: Append)
    ensures Given(published + [a]) == Given(published) + a.records
  {
    assert (published + [a])[..|published|] == published;
  }

  lemma LoadKeepsInv(t: Table, done: seq<Record>, checkpoint: nat, landed: bool)
    requires TableInv(t, done)
    ensures TableInv(LoadBuffer(t, checkpoint, landed), done)
  {
    assert Buffered(LoadBuffer(t, checkpoint, landed)) == Buffered(t);
  }

  lemma InsertConserves(buffered: seq<Record>, published: seq<Append>, done: seq<Record>, r: Record)
    requires Conserved(buffered, published, done)
    ensures Conserved(buffered + [r], published, done + [r])
  {
  }

  lemma InsertPlaces(buffered: seq<Record>, published: seq<Append>, done: seq<Record>, r: Record)
    requires BufferedUncovered(buffered, published) && KeptBack(buffered, published, done) && NotAhead(published, done)
    requires done != [] ==> done[|done| - 1].generation < r.generation
    ensures BufferedUncovered(buffered + [r], published) && KeptBack(buffered + [r], published, done + [r])
    ensures NotAhead(published, done + [r])
  {
  }

  lemma InsertIncreases(done: seq<Record>, r: Record)
    requires StrictlyIncreasing(done) && (done != [] ==> done[|done| - 1].generation < r.generation)
    ensures StrictlyIncreasing(done + [r])
  {
    forall i | 0 <= i < |done|
      ensures done[i].generation < r.generation
    {
      assert i < |done| - 1 ==> done[i].generation < done[|done| - 1].generation;
    }
  }

  lemma InsertShape(t: Table, r: Record)
    requires t.buffer.Some? && Settled(t) && IntentUntouched(t) && HiddenContained(t)
    ensures var t' := Insert(t, r);
            && Settled(t') && IntentUntouched(t') && HiddenContained(t') && t'.buffer.Some?
            && t'.published == t.published && t'.buffer.value.highWater == t.buffer.value.highWater
            && Buffered(t') == Buffered(t) + [r]
  {
  }

  lemma InsertContents(buffered: seq<Record>, published: seq<Append>, done: seq<Record>, r: Record)
    requires StrictlyIncreasing(done) && Conserved(buffered, published, done)
    requires BufferedUncovered(buffered, published) && KeptBack(buffered, published, done) && NotAhead(published, done)
    requires done != [] ==> done[|done| - 1].generation < r.generation
    ensures StrictlyIncreasing(done + [r]) && Conserved(buffered + [r], published, done + [r])
    ensures BufferedUncovered(buffered + [r], published) && KeptBack(buffered + [r], published, done + [r])
    ensures NotAhead(published, done + [r])
  {
    InsertConserves(buffered, published, done, r);
    InsertPlaces(buffered, published, done, r);
    InsertIncreases(done, r);
  }

  lemma InsertKeepsInv(t: Table, done: seq<Record>, r: Record)
    requires TableInv(t, done) && NotAhead(t.published, done) && t.buffer.Some?
    requires done != [] ==> done[|done| - 1].generation < r.generation
    ensures TableInv(Insert(t, r), done + [r]) && NotAhead(Insert(t, r).published, done + [r])
  {
    InsertShape(t, r);
    InsertContents(Buffered(t), t.published, done, r);
    AssembleInv(Insert(t, r), done + [r], Buffered(t) + [r], t.published, t.buffer.value.highWater);
  }

  /** While an intent is unresolved and the buffer holds only earlier generations, a
      flush is stopped by the intent's sidecar before it reaches the catalog. */
  lemma FlushStopsAtSidecar(t: Table, done: seq<Record>, key: TableKey, a: FlushAnswer)
    requires TableInv(t, done) && t.buffer.Some? && t.unresolved.Some?
    requires t.unresolved.value.gens.lo <= t.unresolved.value.gens.hi
    requires forall r | r in done :: r.generation < t.unresolved.value.gens.lo
    ensures Flush(t, key, a).1 == if t.buffer.value.pending == [] then Empty else Failed
    ensures var t' := Flush(t, key, a).0;
            && t'.sidecar == t.sidecar && t'.published == t.published && t'.hidden == t.hidden
            && Buffered(t') == Buffered(t)
    ensures FlushesBelow(t.flushes) ==> FlushesBelow(Flush(t, key, a).0.flushes)
  {
    var b := t.buffer.value;
    assert Buffered(t) == b.pending;
    forall r | r in b.pending
      ensures r.generation < t.unresolved.value.gens.lo
    {
      BufferedIsDone(Buffered(t), t.published, done, r);
    }
    var attempt := FlushAttempt(b.pending, t.unresolved, false);
    assert BelowIntent(attempt);
    if b.pending != [] {
      RangeOfBounds(b.pending);
      assert RangeOf(b.pending).hi < t.unresolved.value.gens.lo;
      assert Flush(t, key, a).0.flushes == t.flushes + [attempt];
    } else {
      assert Flush(t, key, a).0 == t;
    }
  }

  lemma FlushWithoutIntent(t: Table, key: TableKey, a: FlushAnswer)
    requires t.buffer.Some? && t.unresolved.None? && FlushesBelow(t.flushes)
    ensures FlushesBelow(Flush(t, key, a).0.flushes)
  {
    var t' := Flush(t, key, a).0;
    assert t'.flushes == t.flushes
      || (|t'.flushes| == |t.flushes| + 1 && t'.flushes[..|t.flushes|] == t.flushes
          && t'.flushes[|t.flushes|].intent.None?);
    forall i | 0 <= i < |t'.flushes|
      ensures BelowIntent(t'.flushes[i])
    {
      if i < |t.flushes| {
        assert t'.flushes[i] == t.flushes[i];
      }
    }
  }

  /** What `Flush` needs of the table and of the answers to commit. */
  ghost predicate FlushCommits(t: Table, key: TableKey, a: FlushAnswer)
    requires t.buffer.Some?
  {
    var b := t.buffer.value;
    && b.flush.Idle? && b.pending != [] && a.Commits? && a.answer.Publishes?
    && (t.sidecar.None? || t.sidecar.value == Intent(key, RangeOf(b.pending), a.commit))
    && RangeOf(b.pending).lo > b.highWater
  }

  /** Between records a flush commits if and only if the table is idle with rows
      pending, no other intent holds the sidecar, all pending generations lie above the
      high-water mark, and the catalog publishes; what was pending is then one new
      append. */
  lemma CommittedFlush(t: Table, key: TableKey, a: FlushAnswer)
    requires t.buffer.Some? && Settled(t)
    ensures Flush(t, key, a).1 == Committed <==> FlushCommits(t, key, a)
    ensures var b, t' := t.buffer.value, Flush(t, key, a).0;
            Flush(t, key, a).1 == Committed ==>
            && b.flush.Idle? && b.inFlight == [] && b.pending != []
            && RangeOf(b.pending).lo > b.highWater
            && t'.published == t.published + [Append(RangeOf(b.pending), b.pending)]
            && t'.buffer == Some(Buffer([], [], RangeOf(b.pending).hi, Idle))
            && t'.unresolved == t.unresolved && t'.hidden == t.hidden
            && t'.sidecar == if a.answer.removed then None else Some(Intent(key, RangeOf(b.pending), a.commit))
  {
  }

  lemma PublishConserves(buffered: seq<Record>, published: seq<Append>, done: seq<Record>, gens: GenerationRange)
    requires Conserved(buffered, published, done)
    ensures Conserved([], published + [Append(gens, buffered)], done)
  {
    GivenGrows(published, Append(gens, buffered));
  }

  lemma PublishPlaces(
      buffered: seq<Record>, published: seq<Append>, done: seq<Record>, gens: GenerationRange, highWater: nat)
    requires buffered != [] && gens == RangeOf(buffered) && highWater < gens.lo
    requires AppendsOrdered(published, highWater) && KeptBack(buffered, published, done)
    ensures AppendsOrdered(published + [Append(gens, buffered)], gens.hi)
    ensures KeptBack([], published + [Append(gens, buffered)], done)
  {
    RangeOfBounds(buffered);
    // A record kept back would be buffered, and the range would reach below the mark.
    forall i, r | 0 <= i < |published| && r in done && Contains(published[i].gens, r.generation)
      ensures !FoundPublished(published[i])
    {
      assert r in buffered ==> gens.lo <= r.generation;
    }
  }

  lemma PublishedContents(pending: seq<Record>, published: seq<Append>, highWater: nat, done: seq<Record>)
    requires ContentsOk(pending, published, highWater, done)
    requires pending != [] && highWater < RangeOf(pending).lo
    ensures ContentsOk([], published + [Append(RangeOf(pending), pending)], RangeOf(pending).hi, done)
  {
    PublishConserves(pending, published, done, RangeOf(pending));
    PublishPlaces(pending, published, done, RangeOf(pending), highWater);
  }

  lemma PublishedBehind(pending: seq<Record>, published: seq<Append>, done: seq<Record>)
    requires Conserved(pending, published, done) && StrictlyIncreasing(done) && NotAhead(published, done)
    requires pending != []
    ensures NotAhead(published + [Append(RangeOf(pending), pending)], done)
  {
    RangeOfBounds(pending);
    var r :| r in pending && r.generation == RangeOf(pending).hi;
    BufferedIsDone(pending, published, done, r);
  }

  lemma IdleContents(t: Table, done: seq<Record>)
    requires TableInv(t, done) && t.buffer.Some? && t.buffer.value.flush.Idle?
    ensures ContentsOk(t.buffer.value.pending, t.published, t.buffer.value.highWater, done)
  {
    assert Buffered(t) == t.buffer.value.pending;
  }

  /** A table whose pending rows have become one append. */
  lemma DrainedInv(t: Table, done: seq<Record>, published: seq<Append>, highWater: nat)
    requires t.buffer == Some(Buffer([], [], highWater, Idle)) && t.published == published
    requires t.unresolved.None? && HiddenContained(t) && ContentsOk([], published, highWater, done)
    ensures TableInv(t, done)
  {
    assert Buffered(t) == [];
    AssembleInv(t, done, [], published, highWater);
  }

  lemma FlushKeepsHidden(t: Table, key: TableKey, a: FlushAnswer)
    requires t.buffer.Some? && Settled(t) && HiddenContained(t) && t.unresolved.None?
    requires Flush(t, key, a).1 == Committed
    ensures HiddenContained(Flush(t, key, a).0)
  {
    CommittedFlush(t, key, a);
  }

  lemma FlushKeepsInv(t: Table, done: seq<Record>, key: TableKey, a: FlushAnswer)
    requires TableInv(t, done) && NotAhead(t.published, done) && t.buffer.Some? && t.unresolved.None?
    requires Flush(t, key, a).1 == Committed
    ensures TableInv(Flush(t, key, a).0, done) && NotAhead(Flush(t, key, a).0.published, done)
  {
    var b, t' := t.buffer.value, Flush(t, key, a).0;
    CommittedFlush(t, key, a);
    IdleContents(t, done);
    FlushKeepsHidden(t, key, a);
    PublishedContents(b.pending, t.published, b.highWater, done);
    PublishedBehind(b.pending, t.published, done);
    DrainedInv(t', done, t.published + [Append(RangeOf(b.pending), b.pending)], RangeOf(b.pending).hi);
  }

  lemma SameContents(s: seq<Record>, s': seq<Record>)
    requires multiset(s) == multiset(s')
    ensures forall r :: r in s <==> r in s'
  {
    forall r
      ensures r in s <==> r in s'
    {
      assert r in s <==> r in multiset(s);
    }
  }

  lemma RestoredRange(b: Buffer, intent: Intent, restored: Buffer)
    requires Restore(b, intent) == Some(restored)
    ensures multiset(restored.inFlight) + multiset(restored.pending) == multiset(b.pending)
    ensures forall r | r in restored.inFlight :: r in b.pending && Contains(intent.gens, r.generation)
    ensures restored.inFlight != [] ==>
              && (forall r | r in restored.pending :: !Contains(intent.gens, r.generation))
              && exists r | r in restored.inFlight :: r.generation == intent.gens.hi
    ensures restored.inFlight == [] ==> restored.pending == b.pending
  {
    SplitIsPartition(b.pending, intent.gens);
    SplitMembers(b.pending, intent.gens, true);
    SplitMembers(b.pending, intent.gens, false);
    if restored.inFlight != [] {
      RangeOfBounds(restored.inFlight);
    }
  }

  /** The restored buffer holds the replayed records, and in flight exactly those of the
      intent's range, or none. */
  ghost predicate RestoredFrom(intent: Intent, restored: Buffer, done: seq<Record>) {
    && multiset(restored.inFlight) + multiset(restored.pending) == multiset(done)
    && (forall r | r in restored.inFlight :: Contains(intent.gens, r.generation))
    && (restored.inFlight != [] ==> forall r | r in restored.pending :: !Contains(intent.gens, r.generation))
    && (restored.inFlight == [] ==> forall r | r in done :: r in restored.pending)
  }

  lemma ResolvedIntent(t: Table, done: seq<Record>, intent: Intent, restored: Buffer)
    requires TableInv(t, done) && t.buffer.Some? && t.unresolved == Some(intent)
    requires Restore(t.buffer.value, intent) == Some(restored)
    ensures RestoredFrom(intent, restored, done)
  {
    var pending := t.buffer.value.pending;
    assert Buffered(t) == pending && Given(t.published) == [];
    assert multiset(pending) == multiset(done);
    RestoredRange(t.buffer.value, intent, restored);
    SameContents(pending, done);
  }

  lemma FirstAppendConserves(append: Append, pending: seq<Record>, done: seq<Record>)
    requires multiset(append.records) + multiset(pending) == multiset(done)
    ensures Conserved(pending, [append], done)
  {
    GivenGrows([], append);
    assert [] + [append] == [append];
    assert Given([append]) == append.records;
  }

  lemma FirstAppendPlaces(append: Append, pending: seq<Record>, done: seq<Record>)
    requires append.records != [] ==> forall r | r in pending :: !Contains(append.gens, r.generation)
    requires append.records == [] ==> forall r | r in done :: r in pending
    ensures BufferedUncovered(pending, [append]) && KeptBack(pending, [append], done)
  {
  }

  lemma ResolvedShape(t: Table, intent: Intent, a: ResolveAnswer, restored: Buffer)
    requires t.buffer.Some? && IntentUntouched(t) && Settled(t) && HiddenContained(t) && t.unresolved == Some(intent)
    requires Restore(t.buffer.value, intent) == Some(restored) && Resolve(t, intent, a).1
    ensures var t' := Resolve(t, intent, a).0.(unresolved := None);
            && Settled(t') && IntentUntouched(t') && HiddenContained(t') && t'.buffer.Some?
            && (a.Proven? ==> t'.published == [Append(intent.gens, restored.inFlight)]
                              && Buffered(t') == restored.pending && intent.gens.hi <= t'.buffer.value.highWater)
            && (a.Contained? ==> t'.published == [] && Buffered(t') == restored.inFlight + restored.pending)
  {
  }

  lemma ProvenContents(intent: Intent, restored: Buffer, done: seq<Record>, highWater: nat)
    requires StrictlyIncreasing(done) && RestoredFrom(intent, restored, done) && intent.gens.hi <= highWater
    ensures ContentsOk(restored.pending, [Append(intent.gens, restored.inFlight)], highWater, done)
  {
    var append := Append(intent.gens, restored.inFlight);
    FirstAppendConserves(append, restored.pending, done);
    FirstAppendPlaces(append, restored.pending, done);
  }

  lemma ContainedContents(intent: Intent, restored: Buffer, done: seq<Record>, highWater: nat)
    requires StrictlyIncreasing(done) && RestoredFrom(intent, restored, done)
    ensures ContentsOk(restored.inFlight + restored.pending, [], highWater, done)
  {
    assert Given([]) == [];
    assert multiset(restored.inFlight + restored.pending) == multiset(restored.inFlight) + multiset(restored.pending);
  }

  lemma ResolveKeepsInv(t: Table, done: seq<Record>, a: ResolveAnswer)
    requires TableInv(t, done) && t.buffer.Some? && t.unresolved.Some?
    requires Resolve(t, t.unresolved.value, a).1
    ensures TableInv(Resolve(t, t.unresolved.value, a).0.(unresolved := None), done)
  {
    var intent := t.unresolved.value;
    var t' := Resolve(t, intent, a).0.(unresolved := None);
    var restored := Restore(t.buffer.value, intent).value;
    ResolvedShape(t, intent, a, restored);
    ResolvedIntent(t, done, intent, restored);
    if a.Proven? {
      ProvenContents(intent, restored, done, t'.buffer.value.highWater);
    } else {
      ContainedContents(intent, restored, done, t'.buffer.value.highWater);
    }
    AssembleInv(t', done, Buffered(t'), t'.published, t'.buffer.value.highWater);
  }

  lemma ResolveStaysBehind(t: Table, done: seq<Record>, a: ResolveAnswer)
    requires TableInv(t, done) && t.buffer.Some? && t.unresolved.Some?
    requires done != [] && t.unresolved.value.gens.hi <= done[|done| - 1].generation
    requires Resolve(t, t.unresolved.value, a).1
    ensures NotAhead(Resolve(t, t.unresolved.value, a).0.published, done)
  {
  }

  /** How a resolved intent is left: proven to be in the catalog and its sidecar gone,
      or still on disk with the table blocked. */
  ghost predicate IntentSettled(t: Table, intent: Intent) {
    || (t.buffer.Some? && t.sidecar != Some(intent)
        && exists i :: 0 <= i < |t.published| && t.published[i].gens == intent.gens)
    || (t.buffer.Some? && t.buffer.value.flush == Blocked(intent) && t.sidecar == Some(intent))
  }

  lemma ResolveSettles(t: Table, done: seq<Record>, a: ResolveAnswer)
    requires TableInv(t, done) && t.buffer.Some? && t.unresolved.Some?
    requires Resolve(t, t.unresolved.value, a).1
    ensures IntentSettled(Resolve(t, t.unresolved.value, a).0, t.unresolved.value)
  {
    var intent := t.unresolved.value;
    var t' := Resolve(t, intent, a).0;
    if a.Proven? {
      assert t'.published[0].gens == intent.gens;
    }
  }

  lemma FlushKeepsSettled(t: Table, done: seq<Record>, key: TableKey, a: FlushAnswer, intent: Intent)
    requires TableInv(t, done) && t.buffer.Some? && IntentSettled(t, intent) && intent.gens.lo <= intent.gens.hi
    requires Flush(t, key, a).1 == Committed
    ensures IntentSettled(Flush(t, key, a).0, intent)
  {
    var t' := Flush(t, key, a).0;
    CommittedFlush(t, key, a);
    RangeOfBounds(t.buffer.value.pending);
    var i :| 0 <= i < |t.published| && t.published[i].gens == intent.gens;
    assert t'.published[i].gens == intent.gens;
    assert t'.sidecar.None? || t'.sidecar.value.gens == RangeOf(t.buffer.value.pending);
  }

  /** The catalog holds an append without proof whose range has the record. */
  ghost predicate HiddenCovers(t: Table, r: Record) {
    t.hidden.Some? && Contains(t.hidden.value.gens, r.generation)
  }

  /** Append `i`, and no other, has the record in its range. */
  ghost predicate CoversAlone(published: seq<Append>, i: nat, r: Record) {
    i < |published| && forall j | 0 <= j < |published| :: Contains(published[j].gens, r.generation) <==> i == j
  }

  /** Of all appends in the catalog exactly one has the record in its range. */
  ghost predicate OneAppendCovers(t: Table, r: Record) {
    || (HiddenCovers(t, r) && !Covered(t.published, r))
    || (!HiddenCovers(t, r) && exists i: nat :: CoversAlone(t.published, i, r))
  }

  /** In the buffer once, and in no append of the catalog. */
  ghost predicate OnlyBuffered(t: Table, r: Record) {
    multiset(Buffered(t))[r] == 1 && !Covered(t.published, r) && !HiddenCovers(t, r)
  }

  /** Out of the buffer, given up once, and in one append of the catalog: the one it
      was given up for. */
  ghost predicate OnlyInCatalog(t: Table, r: Record) {
    && r !in Buffered(t) && multiset(Given(t.published))[r] == 1 && !HiddenCovers(t, r)
    && exists i: nat :: CoversAlone(t.published, i, r) && r in t.published[i].records
  }

  /** In the buffer once, and in one append of the catalog as well. */
  ghost predicate InBoth(t: Table, r: Record) {
    multiset(Buffered(t))[r] == 1 && OneAppendCovers(t, r)
  }

  ghost predicate ExactlyOnce(t: Table, r: Record) {
    OnlyBuffered(t, r) || OnlyInCatalog(t, r)
  }

  lemma {:induction false} IncreasingMeansOnce(s: seq<Record>, r: Record)
    requires StrictlyIncreasing(s) && r in s
    ensures multiset(s)[r] == 1
  {
    var last := s[|s| - 1];
    assert s == s[..|s| - 1] + [last];
    if r == last {
      assert r !in s[..|s| - 1];
    } else {
      IncreasingMeansOnce(s[..|s| - 1], r);
    }
  }

  lemma PublishedOnceIn(published: seq<Append>, highWater: nat, r: Record, i: nat)
    requires AppendsOrdered(published, highWater)
    requires i < |published| && r in published[i].records
    ensures CoversAlone(published, i, r)
  {
    assert Contains(published[i].gens, r.generation);
    forall j | 0 <= j < |published| && j != i
      ensures !Contains(published[j].gens, r.generation)
    {
      if j < i {
        assert published[j].gens.hi < published[i].gens.lo;
      } else {
        assert published[i].gens.hi < published[j].gens.lo;
      }
    }
  }

  ghost predicate FoundCovers(t: Table, r: Record) {
    exists i :: 0 <= i < |t.published| && FoundPublished(t.published[i]) && Contains(t.published[i].gens, r.generation)
  }

  lemma OneFoundCovers(t: Table, done: seq<Record>, r: Record)
    requires TableInv(t, done) && FoundCovers(t, r)
    ensures OneAppendCovers(t, r)
  {
    var i :| 0 <= i < |t.published| && FoundPublished(t.published[i]) && Contains(t.published[i].gens, r.generation);
    forall j | 0 <= j < |t.published| && j != i
      ensures !Contains(t.published[j].gens, r.generation)
    {
      if j < i {
        assert t.published[j].gens.hi < t.published[i].gens.lo;
      } else {
        assert t.published[i].gens.hi < t.published[j].gens.lo;
      }
    }
    assert CoversAlone(t.published, i, r);
  }

  lemma BufferedRecord(t: Table, done: seq<Record>, r: Record)
    requires TableInv(t, done) && multiset(Buffered(t))[r] == 1
    ensures OnlyBuffered(t, r) <==> !FoundCovers(t, r) && !HiddenCovers(t, r)
    ensures InBoth(t, r) <==> FoundCovers(t, r) || HiddenCovers(t, r)
  {
    assert r in Buffered(t);
    assert Covered(t.published, r) ==> FoundCovers(t, r) by {
      if Covered(t.published, r) {
        var a :| a in t.published && Contains(a.gens, r.generation);
        var i :| 0 <= i < |t.published| && t.published[i] == a;
        assert FoundPublished(t.published[i]);
      }
    }
    if FoundCovers(t, r) {
      OneFoundCovers(t, done, r);
    }
    if i: nat :| CoversAlone(t.published, i, r) {
      assert Contains(t.published[i].gens, r.generation) && t.published[i] in t.published;
    }
  }

  lemma GivenRecord(t: Table, done: seq<Record>, r: Record)
    requires TableInv(t, done) && r in done && r !in Buffered(t) && multiset(Given(t.published))[r] == 1
    ensures OnlyInCatalog(t, r) && !InBoth(t, r) && !FoundCovers(t, r) && !HiddenCovers(t, r)
  {
    assert r in Given(t.published);
    GivenIn(t.published, r);
    var a :| a in t.published && r in a.records;
    var i :| 0 <= i < |t.published| && t.published[i] == a;
    PublishedOnceIn(t.published, t.buffer.value.highWater, r, i);
  }

  /** Every replayed record is in the buffer only, in the catalog only, or in both. It
      is in both exactly when an append found published covers it - the intent's delayed
      original landed between the two reads of the checkpoint - or the catalog holds the
      append of an intent the table is blocked on. */
  lemma WhereRecordsAre(t: Table, done: seq<Record>, r: Record)
    requires TableInv(t, done) && r in done
    ensures ExactlyOnce(t, r) <==> !FoundCovers(t, r) && !HiddenCovers(t, r)
    ensures InBoth(t, r) <==> !ExactlyOnce(t, r)
    ensures !(OnlyBuffered(t, r) && OnlyInCatalog(t, r))
  {
    IncreasingMeansOnce(done, r);
    assert multiset(Buffered(t))[r] + multiset(Given(t.published))[r] == 1;
    if r in Buffered(t) {
      assert multiset(Buffered(t))[r] == 1;
      BufferedRecord(t, done, r);
    } else {
      GivenRecord(t, done, r);
    }
  }
}
