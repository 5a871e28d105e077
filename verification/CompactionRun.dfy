/**
Runs of a table under appends, position deletes and any number of compactions at
once. A compaction checks its base snapshot before the transaction reloads the
table, so appends, position deletes of other clients, and other compactions that have
passed the same check can land between its check and its publication.
*/
module CompactionRun {
  import opened Wrappers
  import opened CompactionFiles
  import opened Compaction
  import opened CompactionCount
  import L = Lineage

  datatype Job =
    | Planned(base: nat, inputs: seq<File>, deletes: seq<File>)
    | Written(base: nat, inputs: seq<File>, deletes: seq<File>, outputs: seq<File>)
    | Checked(inputs: seq<File>, deletes: seq<File>, outputs: seq<File>)

  // All manifest entries of the current snapshot, the removed paths, the snapshots,
  // the compactions under way, and every file that was ever written.
  datatype State = State(
    files: seq<File>, removed: set<string>, snapshots: seq<L.Snapshot>, jobs: map<nat, Job>, known: seq<File>)

  const EMPTY := State([], {}, [], map[], [])

  datatype Event =
    | Append(added: seq<File>)
    | AddDeletes(added: seq<File>)
    | Plan(job: nat, partition: nat, inputs: seq<File>)
    | Write(job: nat, outputs: seq<File>)
    | Check(job: nat)
    | Publish(job: nat)
    | Abandon(job: nat)

  function NextSnapshot(snapshots: seq<L.Snapshot>, marker: L.Marker): L.Snapshot {
    L.Snapshot(|snapshots|, if snapshots == [] then None else Some(|snapshots| - 1), marker)
  }

  function CurrentId(s: State): Option<int> {
    if s.snapshots == [] then None else Some(|s.snapshots| - 1)
  }

  function LocUris(locs: seq<Location>): set<string> {
    set loc | loc in locs :: Uri(loc)
  }

  /** The list of removed paths a replace records: inputs, then resolved deletes. */
  function RemovedList(inputs: seq<File>, resolved: seq<Location>): seq<string> {
    seq(|inputs|, i requires 0 <= i < |inputs| => Uri(inputs[i].loc))
    + seq(|resolved|, i requires 0 <= i < |resolved| => Uri(resolved[i]))
  }

  function Outputs(job: Job): seq<File> {
    if job.Planned? then [] else job.outputs
  }

  /** A key that ends another file's URI names that file. */
  ghost predicate NoClashes(files: seq<File>) {
    forall f, g | f in files && g in files && f.Data? && g.Data?
                  && (Uri(g.loc) == f.loc.key || PathSuffix(f.loc.key, Uri(g.loc))) :: Uri(f.loc) == Uri(g.loc)
  }

  /** New files get names nobody has used. */
  ghost predicate FreshFiles(known: seq<File>, added: seq<File>) {
    DistinctUris(known + added) && NoClashes(known + added)
  }

  ghost predicate MarksKnownFiles(files: seq<File>, added: seq<File>) {
    forall d, path | d in added && d.Deletes? && path in d.marks ::
      exists g :: g in files && g.Data? && Uri(g.loc) == path && g.partition == d.partition
  }

  ghost predicate GoodInputs(files: seq<File>, removed: set<string>, partition: nat, inputs: seq<File>) {
    && DistinctUris(inputs)
    && forall f | f in inputs :: f in files && f.Data? && f.partition == partition && Uri(f.loc) !in removed
  }

  ghost predicate Enabled(s: State, ev: Event) {
    match ev
    case Append(added) => AllData(added) && FreshFiles(s.known, added)
    case AddDeletes(added) =>
      && (forall d | d in added :: d.Deletes?)
      && FreshFiles(s.known, added) && MarksKnownFiles(s.files, added)
    case Plan(j, partition, inputs) => j !in s.jobs && GoodInputs(s.files, s.removed, partition, inputs)
    case Write(j, outputs) =>
      && j in s.jobs && s.jobs[j].Planned? && AllData(outputs) && FreshFiles(s.known, outputs)
      && AllRows(outputs) == RowsOf(s.jobs[j].inputs, s.jobs[j].deletes, {})
      && ConservesRows(s.jobs[j].inputs, outputs, CountedRows(s.jobs[j].inputs, s.jobs[j].deletes))
    case Check(j) => j in s.jobs && s.jobs[j].Written?
    case Publish(j) => j in s.jobs && s.jobs[j].Checked?
    case Abandon(j) => j in s.jobs
  }

  function AddFiles(s: State, added: seq<File>): State {
    s.(files := s.files + added, snapshots := s.snapshots + [NextSnapshot(s.snapshots, L.NoMarker)],
       known := s.known + added)
  }

  function ReplaceFiles(s: State, job: Job): State
    requires job.Checked?
  {
    var resolved := Resolved(job.inputs, job.deletes);
    s.(files := s.files + job.outputs,
       removed := s.removed + Uris(job.inputs) + LocUris(resolved),
       snapshots := s.snapshots + [NextSnapshot(s.snapshots, L.Paths(RemovedList(job.inputs, resolved)))])
  }

  ghost function Next(s: State, ev: Event): State
    requires Enabled(s, ev)
  {
    match ev
    case Append(added) => AddFiles(s, added)
    case AddDeletes(added) => AddFiles(s, added)
    case Plan(j, partition, inputs) =>
      s.(jobs := s.jobs[j := Planned(|s.snapshots|, inputs, PlanDeletes(s.files, s.removed, partition))])
    case Write(j, outputs) =>
      s.(jobs := s.jobs[j := Written(s.jobs[j].base, s.jobs[j].inputs, s.jobs[j].deletes, outputs)],
         known := s.known + outputs)
    case Check(j) =>
      var job := s.jobs[j];
      s.(jobs := if |s.snapshots| == job.base then s.jobs[j := Checked(job.inputs, job.deletes, job.outputs)]
                 else s.jobs - {j})
    case Publish(j) => ReplaceFiles(s, s.jobs[j]).(jobs := s.jobs - {j})
    case Abandon(j) => s.(jobs := s.jobs - {j})
  }

  ghost predicate Step(s: State, ev: Event, s': State) {
    Enabled(s, ev) && s' == Next(s, ev)
  }

  // ----- The invariant -----

  /** Every name is used once, and the outputs under way are not in the table. */
  ghost predicate NamesOk(s: State) {
    && DistinctUris(s.known) && NoClashes(s.known) && DistinctUris(s.files)
    && (forall f | f in s.files :: f in s.known)
    && (forall j | j in s.jobs :: OutputsApart(s, s.jobs[j]))
    && (forall j, k, f | j in s.jobs && k in s.jobs && f in Outputs(s.jobs[j]) && f in Outputs(s.jobs[k]) :: j == k)
  }

  ghost predicate OutputsApart(s: State, job: Job) {
    DistinctUris(Outputs(job)) && forall f | f in Outputs(job) :: f in s.known && f !in s.files
  }

  ghost predicate TableOk(files: seq<File>, removed: set<string>) {
    MarksLocal(files) && removed <= Uris(files)
  }

  /** What the job's deletes mark is still dead in those of its inputs that are live. */
  ghost predicate JobSound(files: seq<File>, removed: set<string>, job: Job) {
    && DistinctUris(job.inputs)
    && (forall f | f in job.inputs :: f in files && f.Data?)
    && (forall d | d in job.deletes :: d in files && d.Deletes?)
    && (forall f | f in job.inputs && Uri(f.loc) !in removed ::
          Dead(Uri(f.loc), job.deletes, {}) <= Dead(Uri(f.loc), files, removed))
  }

  /** All inputs are live, and nothing but the job's deletes marks them. */
  ghost predicate Exact(files: seq<File>, removed: set<string>, job: Job) {
    forall f | f in job.inputs ::
      Uri(f.loc) !in removed && Dead(Uri(f.loc), files, removed) == Dead(Uri(f.loc), job.deletes, {})
  }

  ghost predicate OutputsOk(job: Job) {
    !job.Planned? ==> AllData(job.outputs) && AllRows(job.outputs) == RowsOf(job.inputs, job.deletes, {})
  }

  ghost predicate JobOk(files: seq<File>, removed: set<string>, length: nat, job: Job) {
    && OutputsOk(job)
    && (job.Checked? ==> JobSound(files, removed, job))
    && (!job.Checked? ==>
          && job.base <= length
          && (job.base == length ==> JobSound(files, removed, job) && Exact(files, removed, job)))
  }

  ghost predicate JobsOk(s: State) {
    forall j | j in s.jobs :: JobOk(s.files, s.removed, |s.snapshots|, s.jobs[j])
  }

  ghost predicate Numbered(snapshots: seq<L.Snapshot>) {
    forall i | 0 <= i < |snapshots| ::
      && snapshots[i].id == i && snapshots[i].parent == (if i == 0 then None else Some(i - 1))
      && !snapshots[i].marker.Unparseable?
  }

  ghost predicate SomeMarks(snapshots: seq<L.Snapshot>, path: string) {
    exists i :: 0 <= i < |snapshots| && path in L.MarkerPaths(snapshots[i].marker)
  }

  /** The removed paths are those that some snapshot of the history marks. */
  ghost predicate Linear(snapshots: seq<L.Snapshot>, removed: set<string>) {
    Numbered(snapshots) && forall p :: p in removed <==> SomeMarks(snapshots, p)
  }

  ghost predicate Inv(s: State) {
    NamesOk(s) && TableOk(s.files, s.removed) && JobsOk(s) && Linear(s.snapshots, s.removed)
  }

  // ----- Names -----

  lemma DistinctParts(a: seq<File>, b: seq<File>)
    requires DistinctUris(a + b)
    ensures DistinctUris(a) && DistinctUris(b)
    ensures forall f, g | f in a && g in b :: Uri(f.loc) != Uri(g.loc)
  {
    var all := a + b;
    forall i, j | 0 <= i < j < |a|
      ensures Uri(a[i].loc) != Uri(a[j].loc)
    {
      assert a[i] == all[i] && a[j] == all[j];
    }
    forall i, j | 0 <= i < j < |b|
      ensures Uri(b[i].loc) != Uri(b[j].loc)
    {
      assert b[i] == all[|a| + i] && b[j] == all[|a| + j];
    }
    forall f, g | f in a && g in b
      ensures Uri(f.loc) != Uri(g.loc)
    {
      var i :| 0 <= i < |a| && a[i] == f;
      var j :| 0 <= j < |b| && b[j] == g;
      assert all[i] == f && all[|a| + j] == g;
    }
  }

  lemma DistinctConcat(a: seq<File>, b: seq<File>)
    requires DistinctUris(a) && DistinctUris(b) && forall f, g | f in a && g in b :: Uri(f.loc) != Uri(g.loc)
    ensures DistinctUris(a + b)
  {
    forall i, j | 0 <= i < j < |a + b|
      ensures Uri((a + b)[i].loc) != Uri((a + b)[j].loc)
    {
      if i < |a| && j >= |a| {
        assert a[i] in a && b[j - |a|] in b;
      }
    }
  }

  lemma FewerClashes(files: seq<File>, part: seq<File>)
    requires NoClashes(files) && forall f | f in part :: f in files
    ensures NoClashes(part)
  {
  }

  /** Files of which one is in the table and the other is not have different names. */
  lemma ApartByName(known: seq<File>, files: seq<File>, outputs: seq<File>)
    requires DistinctUris(known) && (forall f | f in files :: f in known)
    requires forall f | f in outputs :: f in known && f !in files
    ensures forall f, g | f in files && g in outputs :: Uri(f.loc) != Uri(g.loc)
  {
    forall f, g | f in files && g in outputs
      ensures Uri(f.loc) != Uri(g.loc)
    {
      if Uri(f.loc) == Uri(g.loc) {
        SameUriSameFile(known, f, g);
        assert false;
      }
    }
  }

  lemma AddKeepsNames(s: State, added: seq<File>)
    requires NamesOk(s) && FreshFiles(s.known, added)
    ensures NamesOk(AddFiles(s, added))
  {
    var s' := AddFiles(s, added);
    DistinctParts(s.known, added);
    DistinctConcat(s.files, added);
    forall j | j in s'.jobs
      ensures OutputsApart(s', s'.jobs[j])
    {
      assert OutputsApart(s, s.jobs[j]);
    }
  }

  lemma WriteKeepsNames(s: State, j: nat, outputs: seq<File>, s': State)
    requires NamesOk(s) && Step(s, Write(j, outputs), s')
    ensures NamesOk(s')
  {
    DistinctParts(s.known, outputs);
    forall k | k in s'.jobs
      ensures OutputsApart(s', s'.jobs[k])
    {
      assert OutputsApart(s, s.jobs[k]);
    }
    forall k, f | k in s.jobs && f in Outputs(s.jobs[k])
      ensures f !in outputs
    {
      assert OutputsApart(s, s.jobs[k]);
    }
  }

  lemma FewerJobsKeepNames(s: State, jobs: map<nat, Job>)
    requires NamesOk(s)
    requires forall j | j in jobs :: j in s.jobs && Outputs(jobs[j]) == Outputs(s.jobs[j])
    ensures NamesOk(s.(jobs := jobs))
  {
    forall j | j in jobs
      ensures OutputsApart(s.(jobs := jobs), jobs[j])
    {
      assert OutputsApart(s, s.jobs[j]);
    }
  }

  lemma PublishKeepsNames(s: State, j: nat, s': State)
    requires NamesOk(s) && Step(s, Publish(j), s')
    ensures NamesOk(s')
  {
    var outputs := s.jobs[j].outputs;
    assert OutputsApart(s, s.jobs[j]);
    ApartByName(s.known, s.files, outputs);
    DistinctConcat(s.files, outputs);
    forall k | k in s'.jobs
      ensures OutputsApart(s', s'.jobs[k])
    {
      assert OutputsApart(s, s.jobs[k]);
    }
  }

  // ----- History -----

  lemma ExtendLinear(snapshots: seq<L.Snapshot>, removed: set<string>, marker: L.Marker)
    requires Linear(snapshots, removed) && !marker.Unparseable?
    ensures Linear(snapshots + [NextSnapshot(snapshots, marker)], removed + L.MarkerPaths(marker))
  {
    var longer := snapshots + [NextSnapshot(snapshots, marker)];
    forall p
      ensures p in removed + L.MarkerPaths(marker) <==> SomeMarks(longer, p)
    {
      if p in removed {
        var i :| 0 <= i < |snapshots| && p in L.MarkerPaths(snapshots[i].marker);
        assert longer[i] == snapshots[i];
      }
      if p in L.MarkerPaths(marker) {
        assert longer[|snapshots|].marker == marker;
      }
    }
  }

  lemma MoreUris(files: seq<File>, added: seq<File>)
    ensures Uris(files) <= Uris(files + added)
  {
    forall u | u in Uris(files)
      ensures u in Uris(files + added)
    {
      var f :| f in files && Uri(f.loc) == u;
      assert f in files + added;
    }
  }

  lemma MarksStayLocal(files: seq<File>, added: seq<File>)
    requires MarksLocal(files) && MarksKnownFiles(files, added)
    ensures MarksLocal(files + added)
  {
    forall d, path | d in files + added && d.Deletes? && path in d.marks
      ensures exists g :: g in files + added && g.Data? && Uri(g.loc) == path && g.partition == d.partition
    {
      var g :| g in files && g.Data? && Uri(g.loc) == path && g.partition == d.partition;
      assert g in files + added;
    }
  }

  // ----- Jobs -----

  lemma AppendKeepsJob(files: seq<File>, added: seq<File>, removed: set<string>, length: nat, job: Job)
    requires JobOk(files, removed, length, job)
    ensures JobOk(files + added, removed, length + 1, job)
  {
    if job.Checked? {
      forall f | f in job.inputs && Uri(f.loc) !in removed
        ensures Dead(Uri(f.loc), job.deletes, {}) <= Dead(Uri(f.loc), files + added, removed)
      {
        DeadGrows(Uri(f.loc), files, added, removed);
      }
    }
  }

  lemma AddKeepsInv(s: State, added: seq<File>)
    requires Inv(s) && FreshFiles(s.known, added) && MarksKnownFiles(s.files, added)
    ensures Inv(AddFiles(s, added))
  {
    var s' := AddFiles(s, added);
    AddKeepsNames(s, added);
    MarksStayLocal(s.files, added);
    MoreUris(s.files, added);
    ExtendLinear(s.snapshots, s.removed, L.NoMarker);
    assert s.removed + L.MarkerPaths(L.NoMarker) == s.removed;
    forall j | j in s'.jobs
      ensures JobOk(s'.files, s'.removed, |s'.snapshots|, s'.jobs[j])
    {
      AppendKeepsJob(s.files, added, s.removed, |s.snapshots|, s.jobs[j]);
    }
  }

  lemma {:induction false} PlanIsSound(s: State, partition: nat, inputs: seq<File>)
    requires Inv(s) && GoodInputs(s.files, s.removed, partition, inputs)
    ensures JobOk(s.files, s.removed, |s.snapshots|,
                  Planned(|s.snapshots|, inputs, PlanDeletes(s.files, s.removed, partition)))
  {
    forall f | f in inputs
      ensures Dead(Uri(f.loc), s.files, s.removed)
              == Dead(Uri(f.loc), PlanDeletes(s.files, s.removed, partition), {})
    {
      PlanDeletesSuffice(s.files, s.removed, f);
    }
  }

  lemma PlanKeepsInv(s: State, j: nat, partition: nat, inputs: seq<File>, s': State)
    requires Inv(s) && Step(s, Plan(j, partition, inputs), s')
    ensures Inv(s')
  {
    PlanIsSound(s, partition, inputs);
    PlanKeepsNames(s, j, s'.jobs[j]);
    forall k | k in s'.jobs
      ensures JobOk(s'.files, s'.removed, |s'.snapshots|, s'.jobs[k])
    {
      assert k != j ==> s'.jobs[k] == s.jobs[k];
    }
  }

  lemma WriteKeepsInv(s: State, j: nat, outputs: seq<File>, s': State)
    requires Inv(s) && Step(s, Write(j, outputs), s')
    ensures Inv(s')
  {
    WriteKeepsNames(s, j, outputs, s');
    forall k | k in s'.jobs
      ensures JobOk(s'.files, s'.removed, |s'.snapshots|, s'.jobs[k])
    {
      assert JobOk(s.files, s.removed, |s.snapshots|, s.jobs[k]);
    }
  }

  lemma CheckKeepsInv(s: State, j: nat, s': State)
    requires Inv(s) && Step(s, Check(j), s')
    ensures Inv(s')
  {
    FewerJobsKeepNames(s, s'.jobs);
    forall k | k in s'.jobs
      ensures JobOk(s'.files, s'.removed, |s'.snapshots|, s'.jobs[k])
    {
      assert JobOk(s.files, s.removed, |s.snapshots|, s.jobs[k]);
    }
  }

  lemma FewerJobsKeepInv(s: State, jobs: map<nat, Job>)
    requires Inv(s) && forall j | j in jobs :: j in s.jobs && jobs[j] == s.jobs[j]
    ensures Inv(s.(jobs := jobs))
  {
    FewerJobsKeepNames(s, jobs);
    FewerJobsKeepJobs(s, jobs);
  }

  lemma FewerJobsKeepJobs(s: State, jobs: map<nat, Job>)
    requires JobsOk(s) && forall j | j in jobs :: j in s.jobs && jobs[j] == s.jobs[j]
    ensures JobsOk(s.(jobs := jobs))
  {
    forall j | j in jobs
      ensures JobOk(s.files, s.removed, |s.snapshots|, jobs[j])
    {
      assert JobOk(s.files, s.removed, |s.snapshots|, s.jobs[j]);
    }
  }

  lemma PlanKeepsNames(s: State, j: nat, job: Job)
    requires NamesOk(s) && job.Planned?
    ensures NamesOk(s.(jobs := s.jobs[j := job]))
  {
    var s' := s.(jobs := s.jobs[j := job]);
    forall k | k in s'.jobs
      ensures OutputsApart(s', s'.jobs[k])
    {
      assert k != j ==> OutputsApart(s, s.jobs[k]);
    }
  }

  // ----- Publication -----

  lemma {:induction false} ResolvedIsDelete(inputs: seq<File>, deletes: seq<File>, u: string)
    requires u in LocUris(Resolved(inputs, deletes))
    ensures exists d :: d in deletes && d.Deletes? && Uri(d.loc) == u && OnlyInputs(inputs, d.marks)
  {
    var loc :| loc in Resolved(inputs, deletes) && Uri(loc) == u;
    ResolvedIn(inputs, deletes, loc);
  }

  /** An input whose key ends a file's URI is that file. */
  lemma {:induction false} FoundIsNamed(files: seq<File>, inputs: seq<File>, g: File)
    requires NoClashes(files) && g in files && g.Data? && FindInput(inputs, Uri(g.loc)).Some?
    requires forall f | f in inputs :: f in files && f.Data?
    ensures Uri(g.loc) in Uris(inputs)
  {
    var f := FindInput(inputs, Uri(g.loc)).value;
    SuffixSpelling(Uri(g.loc), f.loc.key);
    assert f in inputs && f in files;
    assert Uri(f.loc) == Uri(g.loc);
  }

  lemma MarksNameInputs(files: seq<File>, inputs: seq<File>, d: File)
    requires NoClashes(files) && MarksLocal(files) && d in files && d.Deletes? && OnlyInputs(inputs, d.marks)
    requires forall f | f in inputs :: f in files && f.Data?
    ensures forall path | path in d.marks :: path in Uris(inputs)
  {
    forall path | path in d.marks
      ensures path in Uris(inputs)
    {
      var g :| g in files && g.Data? && Uri(g.loc) == path && g.partition == d.partition;
      FoundIsNamed(files, inputs, g);
    }
  }

  lemma DifferentKinds(files: seq<File>, f: File, d: File)
    requires DistinctUris(files) && f in files && d in files && f.Data? && d.Deletes?
    ensures Uri(f.loc) != Uri(d.loc)
  {
    if Uri(f.loc) == Uri(d.loc) {
      SameUriSameFile(files, f, d);
      assert false;
    }
  }

  lemma PublishIsReplaceable(files: seq<File>, removed: set<string>, job: Job)
    requires DistinctUris(files) && NoClashes(files) && MarksLocal(files) && JobSound(files, removed, job)
    ensures Replaceable(files, removed, Uris(job.inputs), LocUris(Resolved(job.inputs, job.deletes)))
    ensures Uris(job.inputs) + LocUris(Resolved(job.inputs, job.deletes)) <= Uris(files)
  {
    var res := LocUris(Resolved(job.inputs, job.deletes));
    forall u | u in res
      ensures exists d :: d in files && d.Deletes? && Uri(d.loc) == u
                          && forall path | path in d.marks :: path in Uris(job.inputs)
    {
      ResolvedIsDelete(job.inputs, job.deletes, u);
      var d :| d in job.deletes && d.Deletes? && Uri(d.loc) == u && OnlyInputs(job.inputs, d.marks);
      MarksNameInputs(files, job.inputs, d);
    }
    forall f, d | f in files && d in files && f.Data? && d.Deletes?
      ensures Uri(f.loc) != Uri(d.loc)
    {
      DifferentKinds(files, f, d);
    }
    forall d, path | d in files && d.Deletes? && Uri(d.loc) in res && path in d.marks
      ensures path in Uris(job.inputs)
    {
      var e :| e in files && e.Deletes? && Uri(e.loc) == Uri(d.loc)
               && forall path | path in e.marks :: path in Uris(job.inputs);
      SameUriSameFile(files, d, e);
    }
  }

  /** Nothing in the table marks a file that is not in it. */
  lemma NewIsUnmarked(files: seq<File>, f: File)
    requires MarksLocal(files) && Uri(f.loc) !in Uris(files)
    ensures Unmarked(Uri(f.loc), files)
  {
    forall d, path | d in files && d.Deletes? && path in d.marks
      ensures path in Uris(files)
    {
      var g :| g in files && g.Data? && Uri(g.loc) == path && g.partition == d.partition;
    }
  }

  lemma AllNew(files: seq<File>, added: seq<File>)
    requires MarksLocal(files) && forall f, g | f in files && g in added :: Uri(f.loc) != Uri(g.loc)
    ensures forall f | f in added :: Uri(f.loc) !in Uris(files) && Unmarked(Uri(f.loc), files)
  {
    forall f | f in added
      ensures Uri(f.loc) !in Uris(files) && Unmarked(Uri(f.loc), files)
    {
      NewIsUnmarked(files, f);
    }
  }

  lemma JobFacts(s: State, j: nat)
    requires Inv(s) && j in s.jobs && s.jobs[j].Checked?
    ensures JobSound(s.files, s.removed, s.jobs[j]) && OutputsOk(s.jobs[j]) && NoClashes(s.files)
    ensures forall f | f in s.jobs[j].outputs ::
              Uri(f.loc) !in Uris(s.files) && Unmarked(Uri(f.loc), s.files)
  {
    var job := s.jobs[j];
    assert JobOk(s.files, s.removed, |s.snapshots|, job) && OutputsApart(s, job);
    FewerClashes(s.known, s.files);
    ApartByName(s.known, s.files, job.outputs);
    AllNew(s.files, job.outputs);
  }

  lemma RemovedListPaths(inputs: seq<File>, resolved: seq<Location>)
    ensures L.MarkerPaths(L.Paths(RemovedList(inputs, resolved))) == Uris(inputs) + LocUris(resolved)
  {
    var list := RemovedList(inputs, resolved);
    forall u | u in Uris(inputs) + LocUris(resolved)
      ensures u in list
    {
      if u in Uris(inputs) {
        var f :| f in inputs && Uri(f.loc) == u;
        var i :| 0 <= i < |inputs| && inputs[i] == f;
        assert list[i] == u;
      } else {
        var loc :| loc in resolved && Uri(loc) == u;
        var i :| 0 <= i < |resolved| && resolved[i] == loc;
        assert list[|inputs| + i] == u;
      }
    }
  }

  /** Another compaction's publication leaves a checked job sound: what is dead in its
      live inputs stays dead. */
  lemma PublishKeepsJob(s: State, job: Job, other: Job)
    requires JobSound(s.files, s.removed, other) && job.Checked? && AllData(job.outputs)
    requires Replaceable(s.files, s.removed, Uris(job.inputs), LocUris(Resolved(job.inputs, job.deletes)))
    ensures JobSound(ReplaceFiles(s, job).files, ReplaceFiles(s, job).removed, other)
  {
    var ins, res := Uris(job.inputs), LocUris(Resolved(job.inputs, job.deletes));
    forall f | f in other.inputs && Uri(f.loc) !in s.removed + ins + res
      ensures Dead(Uri(f.loc), other.deletes, {}) <= Dead(Uri(f.loc), s.files + job.outputs, s.removed + ins + res)
    {
      PublishKeepsDead(Uri(f.loc), s.files, job.outputs, s.removed, ins, res);
    }
  }

  lemma PublishKeepsJobs(s: State, j: nat, s': State)
    requires Inv(s) && Step(s, Publish(j), s')
    ensures JobsOk(s')
  {
    var job := s.jobs[j];
    JobFacts(s, j);
    PublishIsReplaceable(s.files, s.removed, job);
    forall k | k in s'.jobs
      ensures JobOk(s'.files, s'.removed, |s'.snapshots|, s'.jobs[k])
    {
      var other := s.jobs[k];
      assert s'.jobs[k] == other && JobOk(s.files, s.removed, |s.snapshots|, other);
      if other.Checked? {
        PublishKeepsJob(s, job, other);
      }
    }
  }

  lemma ReplaceKeepsTable(
      files: seq<File>, removed: set<string>, added: seq<File>, ins: set<string>, res: set<string>)
    requires TableOk(files, removed) && AllData(added) && ins + res <= Uris(files)
    ensures TableOk(files + added, removed + ins + res)
  {
    MarksStayLocal(files, added);
    MoreUris(files, added);
  }

  /** What a checked job gives up is in the table. */
  lemma GivenUpIsInTable(s: State, j: nat)
    requires Inv(s) && j in s.jobs && s.jobs[j].Checked?
    ensures AllData(s.jobs[j].outputs)
    ensures Uris(s.jobs[j].inputs) + LocUris(Resolved(s.jobs[j].inputs, s.jobs[j].deletes)) <= Uris(s.files)
  {
    JobFacts(s, j);
    PublishIsReplaceable(s.files, s.removed, s.jobs[j]);
  }

  lemma ReplaceKeepsHistory(s: State, job: Job)
    requires Linear(s.snapshots, s.removed) && job.Checked?
    ensures Linear(ReplaceFiles(s, job).snapshots, ReplaceFiles(s, job).removed)
  {
    var resolved := Resolved(job.inputs, job.deletes);
    RemovedListPaths(job.inputs, resolved);
    ExtendLinear(s.snapshots, s.removed, L.Paths(RemovedList(job.inputs, resolved)));
    assert s.removed + Uris(job.inputs) + LocUris(resolved) == s.removed + (Uris(job.inputs) + LocUris(resolved));
  }

  lemma PublishKeepsInv(s: State, j: nat, s': State)
    requires Inv(s) && Step(s, Publish(j), s')
    ensures Inv(s')
  {
    PublishKeepsNames(s, j, s');
    PublishKeepsJobs(s, j, s');
    var job := s.jobs[j];
    GivenUpIsInTable(s, j);
    ReplaceKeepsTable(s.files, s.removed, job.outputs, Uris(job.inputs), LocUris(Resolved(job.inputs, job.deletes)));
    ReplaceKeepsHistory(s, job);
  }

  lemma StepKeepsInv(s: State, ev: Event, s': State)
    requires Inv(s) && Step(s, ev, s')
    ensures Inv(s')
  {
    match ev
    case Append(added) => AddKeepsInv(s, added);
    case AddDeletes(added) => AddKeepsInv(s, added);
    case Publish(j) => PublishKeepsInv(s, j, s');
    case Plan(j, partition, inputs) => PlanKeepsInv(s, j, partition, inputs, s');
    case Write(j, outputs) => WriteKeepsInv(s, j, outputs, s');
    case Check(j) => CheckKeepsInv(s, j, s');
    case Abandon(j) => FewerJobsKeepInv(s, s.jobs - {j});
  }

  // ----- Rows -----

  ghost function Rows(s: State): multiset<Row> {
    LogicalRows(s.files, s.removed)
  }

  /** The rows a publication brings back: what its plan read of the inputs and the
      table no longer shows, because another publication has removed the input or a
      later delete has marked the row. */
  ghost function BroughtBack(s: State, ev: Event): multiset<Row>
    requires Enabled(s, ev)
  {
    if ev.Publish? then Excess(s.jobs[ev.job].inputs, s.jobs[ev.job].deletes, s.files, s.removed) else multiset{}
  }

  lemma SoundReadsAll(files: seq<File>, removed: set<string>, job: Job)
    requires JobSound(files, removed, job)
    ensures ReadsAll(job.inputs, job.deletes, files, removed)
  {
    forall f | f in job.inputs
      ensures Contribution(f, files, removed) <= Contribution(f, job.deletes, {})
    {
      ShowsLess(f, job.deletes, files, removed);
    }
  }

  lemma {:induction false} ReplaceRows(files: seq<File>, removed: set<string>, job: Job)
    requires DistinctUris(files) && JobSound(files, removed, job) && job.Checked? && OutputsOk(job)
    requires Replaceable(files, removed, Uris(job.inputs), LocUris(Resolved(job.inputs, job.deletes)))
    requires forall f | f in job.outputs ::
               && Uri(f.loc) !in removed + Uris(job.inputs) + LocUris(Resolved(job.inputs, job.deletes))
               && Unmarked(Uri(f.loc), files)
    ensures LogicalRows(files + job.outputs,
                        removed + Uris(job.inputs) + LocUris(Resolved(job.inputs, job.deletes)))
            == LogicalRows(files, removed) + Excess(job.inputs, job.deletes, files, removed)
  {
    var ins, res := Uris(job.inputs), LocUris(Resolved(job.inputs, job.deletes));
    var shown, excess := RowsOf(job.inputs, files, removed), Excess(job.inputs, job.deletes, files, removed);
    PublishExchanges(files, job.outputs, removed, ins, res);
    InputsInTable(job.inputs, files, removed);
    SoundReadsAll(files, removed, job);
    ScanSplits(job.inputs, job.deletes, files, removed);
    var rows := LogicalRows(files, removed);
    assert rows + (shown + excess) == (rows + excess) + shown;
    Cancel(LogicalRows(files + job.outputs, removed + ins + res), rows + excess, shown);
  }

  /** A publication adds exactly the rows it brings back, whatever appends, deletes and
      other publications landed since its check. */
  lemma PublishRows(s: State, j: nat, s': State)
    requires Inv(s) && Step(s, Publish(j), s')
    ensures Rows(s') == Rows(s) + BroughtBack(s, Publish(j))
  {
    var job := s.jobs[j];
    JobFacts(s, j);
    PublishIsReplaceable(s.files, s.removed, job);
    ReplaceRows(s.files, s.removed, job);
  }

  /** Only an append adds rows, and it adds its own; only new deletes take rows; a
      publication adds the rows it brings back. */
  lemma StepRows(s: State, ev: Event, s': State)
    requires Inv(s) && Step(s, ev, s')
    ensures ev.Append? ==> Rows(s') == Rows(s) + AllRows(ev.added)
    ensures ev.AddDeletes? ==> Rows(s') <= Rows(s)
    ensures !ev.Append? && !ev.AddDeletes? ==> Rows(s') == Rows(s) + BroughtBack(s, ev)
  {
    if ev.Append? {
      DistinctParts(s.known, ev.added);
      AllNew(s.files, ev.added);
      AppendAdds(s.files, ev.added, s.removed);
    } else if ev.AddDeletes? {
      RowsOfConcat(s.files, ev.added, s.files + ev.added, s.removed);
      DeleteFilesHoldNoRows(ev.added, s.files + ev.added, s.removed);
      DeletesOnlyTake(s.files, s.files, ev.added, s.removed);
    } else if ev.Publish? {
      PublishRows(s, ev.job, s');
    }
  }

  // ----- Runs -----

  ghost predicate Run(states: seq<State>, events: seq<Event>) {
    && |states| == |events| + 1 && states[0] == EMPTY
    && forall k | 0 <= k < |events| :: Step(states[k], events[k], states[k + 1])
  }

  lemma {:induction false} RunKeepsInv(states: seq<State>, events: seq<Event>, k: nat)
    requires Run(states, events) && k < |states|
    ensures Inv(states[k])
  {
    if k > 0 {
      RunKeepsInv(states, events, k - 1);
      StepKeepsInv(states[k - 1], events[k - 1], states[k]);
    }
  }

  ghost function Gained(events: seq<Event>): multiset<Row> {
    if events == [] then multiset{}
    else
      var ev := events[|events| - 1];
      Gained(events[..|events| - 1]) + if ev.Append? then AllRows(ev.added) else multiset{}
  }

  ghost function Deleted(states: seq<State>, events: seq<Event>): multiset<Row>
    requires |states| == |events| + 1
  {
    if events == [] then multiset{}
    else
      var n := |events| - 1;
      Deleted(states[..n + 1], events[..n])
      + if events[n].AddDeletes? then Rows(states[n]) - Rows(states[n + 1]) else multiset{}
  }

  /** All rows that publications brought back. */
  ghost function AllBroughtBack(states: seq<State>, events: seq<Event>): multiset<Row>
    requires Run(states, events)
  {
    if events == [] then multiset{}
    else
      RunPrefix(states, events);
      var n := |events| - 1;
      AllBroughtBack(states[..n + 1], events[..n]) + BroughtBack(states[n], events[n])
  }

  lemma RunPrefix(states: seq<State>, events: seq<Event>)
    requires Run(states, events) && events != []
    ensures Run(states[..|events|], events[..|events| - 1])
    ensures Step(states[|events| - 1], events[|events| - 1], states[|events|])
  {
    var n := |events| - 1;
    forall k | 0 <= k < n
      ensures Step(states[..n + 1][k], events[..n][k], states[..n + 1][k + 1])
    {
      assert Step(states[k], events[k], states[k + 1]);
    }
  }

  /** Over every run the table holds what was appended, less what was deleted, plus
      what publications brought back. */
  lemma {:induction false} RunAccountsForRows(states: seq<State>, events: seq<Event>)
    requires Run(states, events)
    ensures Rows(states[|events|]) + Deleted(states, events) == Gained(events) + AllBroughtBack(states, events)
  {
    if events != [] {
      var n := |events| - 1;
      RunPrefix(states, events);
      RunAccountsForRows(states[..n + 1], events[..n]);
      RunKeepsInv(states, events, n);
      var before, past := states[..n + 1], events[..n];
      StepAccounts(states[n], events[n], states[n + 1],
                   Deleted(before, past), Gained(past), AllBroughtBack(before, past));
    }
  }

  lemma StepAccounts(
      s: State, ev: Event, s': State, deleted: multiset<Row>, gained: multiset<Row>, back: multiset<Row>)
    requires Inv(s) && Step(s, ev, s') && Rows(s) + deleted == gained + back
    ensures Rows(s') + (deleted + if ev.AddDeletes? then Rows(s) - Rows(s') else multiset{})
            == (gained + if ev.Append? then AllRows(ev.added) else multiset{}) + (back + BroughtBack(s, ev))
  {
    StepRows(s, ev, s');
    Reorder(Rows(s), Rows(s'), deleted, gained, back,
            if ev.AddDeletes? then Rows(s) - Rows(s') else multiset{},
            if ev.Append? then AllRows(ev.added) else multiset{}, BroughtBack(s, ev));
  }

  lemma Reorder(rows: multiset<Row>, rows': multiset<Row>, deleted: multiset<Row>, gained: multiset<Row>,
                back: multiset<Row>, taken: multiset<Row>, added: multiset<Row>, again: multiset<Row>)
    requires rows + deleted == gained + back && rows' + taken == rows + added + again
    ensures rows' + (deleted + taken) == (gained + added) + (back + again)
  {
    assert rows' + (deleted + taken) == (rows' + taken) + deleted;
    assert rows + added + again + deleted == (rows + deleted) + (added + again);
  }

  /** A compaction that is given up leaves no trace in the table. */
  lemma AbandonLeavesNoTrace(s: State, j: nat, s': State)
    requires Step(s, Abandon(j), s')
    ensures j !in s'.jobs && Rows(s') == Rows(s) && s'.snapshots == s.snapshots
    ensures forall k | k in s.jobs && k != j :: k in s'.jobs && s'.jobs[k] == s.jobs[k]
  {
  }

  // ----- When a run conserves the rows -----

  /** If the step is a publication, the table still shows of each of its inputs exactly
      what the plan read. */
  ghost predicate BringsNothingBack(s: State, ev: Event) {
    ev.Publish? && ev.job in s.jobs ==> ShowsAll(s.jobs[ev.job].inputs, s.jobs[ev.job].deletes, s.files, s.removed)
  }

  ghost predicate NothingComesBack(states: seq<State>, events: seq<Event>)
    requires |states| == |events| + 1
  {
    forall k | 0 <= k < |events| :: BringsNothingBack(states[k], events[k])
  }

  lemma NothingComesBackPrefix(states: seq<State>, events: seq<Event>)
    requires |states| == |events| + 1 && events != []
    ensures var n := |events| - 1;
            NothingComesBack(states, events) <==>
            NothingComesBack(states[..n + 1], events[..n]) && BringsNothingBack(states[n], events[n])
  {
    var n := |events| - 1;
    assert forall k | 0 <= k < n :: states[..n + 1][k] == states[k] && events[..n][k] == events[k];
  }

  lemma StepBringsNothing(s: State, ev: Event)
    requires Inv(s) && Enabled(s, ev)
    ensures BroughtBack(s, ev) == multiset{} <==> BringsNothingBack(s, ev)
  {
    if ev.Publish? {
      var job := s.jobs[ev.job];
      JobFacts(s, ev.job);
      SoundReadsAll(s.files, s.removed, job);
      ExcessIsEmpty(job.inputs, job.deletes, s.files, s.removed);
    }
  }

  lemma {:induction false} RunBringsNothing(states: seq<State>, events: seq<Event>)
    requires Run(states, events)
    ensures AllBroughtBack(states, events) == multiset{} <==> NothingComesBack(states, events)
  {
    if events != [] {
      var n := |events| - 1;
      RunPrefix(states, events);
      RunBringsNothing(states[..n + 1], events[..n]);
      RunKeepsInv(states, events, n);
      StepBringsNothing(states[n], events[n]);
      NothingComesBackPrefix(states, events);
    }
  }

  /** A run conserves the rows - the table holds what was appended less what was
      deleted - if and only if at every publication the table still shows of each input
      what the plan read: no other publication has removed the input and no later delete
      has taken a row of it. */
  lemma {:induction false} RunConservesRows(states: seq<State>, events: seq<Event>)
    requires Run(states, events)
    ensures Rows(states[|events|]) + Deleted(states, events) == Gained(events) <==> NothingComesBack(states, events)
  {
    RunAccountsForRows(states, events);
    RunBringsNothing(states, events);
    var gained, back := Gained(events), AllBroughtBack(states, events);
    if gained + back == gained {
      assert back + gained == multiset{} + gained;
      Cancel(back, multiset{}, gained);
    }
  }

  // ----- Undisturbed runs -----

  /** Compactions past their check work on different inputs. */
  ghost predicate Exclusive(s: State) {
    forall j, k | j in s.jobs && k in s.jobs && j != k && s.jobs[j].Checked? && s.jobs[k].Checked? ::
      Uris(s.jobs[j].inputs) !! Uris(s.jobs[k].inputs)
  }

  /** New deletes mark no input of a compaction past its check. */
  ghost predicate Undisturbed(s: State, ev: Event) {
    ev.AddDeletes? ==>
      forall j, f | j in s.jobs && s.jobs[j].Checked? && f in s.jobs[j].inputs :: Unmarked(Uri(f.loc), ev.added)
  }

  ghost predicate CheckedExact(s: State) {
    forall j | j in s.jobs && s.jobs[j].Checked? :: Exact(s.files, s.removed, s.jobs[j])
  }

  lemma AddKeepsExact(files: seq<File>, added: seq<File>, removed: set<string>, job: Job)
    requires Exact(files, removed, job) && forall f | f in job.inputs :: Unmarked(Uri(f.loc), added)
    ensures Exact(files + added, removed, job)
  {
    forall f | f in job.inputs
      ensures Dead(Uri(f.loc), files + added, removed) == Dead(Uri(f.loc), job.deletes, {})
    {
      UnmarkedKeepsDead(Uri(f.loc), files, added, removed);
    }
  }

  /** Replacing other inputs leaves an exact job exact. */
  lemma ReplaceKeepsExact(
      files: seq<File>, outputs: seq<File>, removed: set<string>, ins: set<string>, res: set<string>, other: Job)
    requires Replaceable(files, removed, ins, res) && AllData(outputs) && Exact(files, removed, other)
    requires forall f | f in other.inputs :: f in files && f.Data? && Uri(f.loc) !in ins
    ensures Exact(files + outputs, removed + ins + res, other)
  {
    forall f | f in other.inputs
      ensures Uri(f.loc) !in removed + ins + res
      ensures Dead(Uri(f.loc), files + outputs, removed + ins + res) == Dead(Uri(f.loc), other.deletes, {})
    {
      PublishKeepsDead(Uri(f.loc), files, outputs, removed, ins, res);
    }
  }

  lemma OthersInputs(s: State, j: nat, k: nat)
    requires JobsOk(s) && Exclusive(s)
    requires j in s.jobs && k in s.jobs && j != k && s.jobs[j].Checked? && s.jobs[k].Checked?
    ensures forall f | f in s.jobs[k].inputs :: f in s.files && f.Data? && Uri(f.loc) !in Uris(s.jobs[j].inputs)
  {
    assert JobOk(s.files, s.removed, |s.snapshots|, s.jobs[k]);
    assert Uris(s.jobs[j].inputs) !! Uris(s.jobs[k].inputs);
  }

  lemma CheckedIsReplaceable(s: State, j: nat)
    requires Inv(s) && j in s.jobs && s.jobs[j].Checked?
    ensures AllData(s.jobs[j].outputs)
    ensures Replaceable(s.files, s.removed, Uris(s.jobs[j].inputs),
                        LocUris(Resolved(s.jobs[j].inputs, s.jobs[j].deletes)))
  {
    JobFacts(s, j);
    PublishIsReplaceable(s.files, s.removed, s.jobs[j]);
  }

  lemma PublishKeepsOtherExact(s: State, j: nat, k: nat)
    requires JobsOk(s) && CheckedExact(s) && Exclusive(s)
    requires j in s.jobs && k in s.jobs && j != k && s.jobs[j].Checked? && s.jobs[k].Checked?
    requires AllData(s.jobs[j].outputs)
    requires Replaceable(s.files, s.removed, Uris(s.jobs[j].inputs),
                         LocUris(Resolved(s.jobs[j].inputs, s.jobs[j].deletes)))
    ensures Exact(ReplaceFiles(s, s.jobs[j]).files, ReplaceFiles(s, s.jobs[j]).removed, s.jobs[k])
  {
    var job := s.jobs[j];
    OthersInputs(s, j, k);
    ReplaceKeepsExact(s.files, job.outputs, s.removed, Uris(job.inputs), LocUris(Resolved(job.inputs, job.deletes)),
                      s.jobs[k]);
  }

  lemma PublishKeepsExact(s: State, j: nat, s': State)
    requires Inv(s) && CheckedExact(s) && Exclusive(s) && Step(s, Publish(j), s')
    ensures CheckedExact(s')
  {
    CheckedIsReplaceable(s, j);
    forall k | k in s'.jobs && s'.jobs[k].Checked?
      ensures Exact(s'.files, s'.removed, s'.jobs[k])
    {
      PublishKeepsOtherExact(s, j, k);
    }
  }

  lemma AddStepKeepsExact(s: State, added: seq<File>, k: nat)
    requires CheckedExact(s) && k in s.jobs && s.jobs[k].Checked?
    requires forall f | f in s.jobs[k].inputs :: Unmarked(Uri(f.loc), added)
    ensures Exact(AddFiles(s, added).files, s.removed, s.jobs[k])
  {
    AddKeepsExact(s.files, added, s.removed, s.jobs[k]);
  }

  lemma JobStepKeepsExact(s: State, ev: Event, s': State, k: nat)
    requires Inv(s) && CheckedExact(s) && Step(s, ev, s') && k in s'.jobs && s'.jobs[k].Checked?
    requires ev.Plan? || ev.Write? || ev.Check? || ev.Abandon?
    ensures Exact(s'.files, s'.removed, s'.jobs[k])
  {
    assert JobOk(s.files, s.removed, |s.snapshots|, s.jobs[k]);
    assert s'.files == s.files && s'.removed == s.removed;
    assert s'.jobs[k].inputs == s.jobs[k].inputs && s'.jobs[k].deletes == s.jobs[k].deletes;
  }

  lemma StepKeepsExact(s: State, ev: Event, s': State)
    requires Inv(s) && CheckedExact(s) && Exclusive(s) && Undisturbed(s, ev) && Step(s, ev, s')
    ensures CheckedExact(s')
  {
    if ev.Publish? {
      PublishKeepsExact(s, ev.job, s');
    } else {
      forall k | k in s'.jobs && s'.jobs[k].Checked?
        ensures Exact(s'.files, s'.removed, s'.jobs[k])
      {
        if ev.Append? || ev.AddDeletes? {
          AddStepKeepsExact(s, ev.added, k);
        } else {
          JobStepKeepsExact(s, ev, s', k);
        }
      }
    }
  }

  lemma {:induction false} RunKeepsExact(states: seq<State>, events: seq<Event>, k: nat)
    requires Run(states, events) && k < |states|
    requires forall i | 0 <= i < |events| :: Exclusive(states[i]) && Undisturbed(states[i], events[i])
    ensures CheckedExact(states[k])
  {
    if k > 0 {
      RunKeepsExact(states, events, k - 1);
      RunKeepsInv(states, events, k - 1);
      StepKeepsExact(states[k - 1], events[k - 1], states[k]);
    }
  }

  lemma ExactShowsAll(files: seq<File>, removed: set<string>, job: Job)
    requires Exact(files, removed, job)
    ensures ShowsAll(job.inputs, job.deletes, files, removed)
  {
  }

  /** While compactions past their check share no input and no delete marks one, no
      compaction ever adds, loses or resurrects a row. */
  lemma {:induction false} UndisturbedRunConserves(states: seq<State>, events: seq<Event>)
    requires Run(states, events)
    requires forall i | 0 <= i < |events| :: Exclusive(states[i]) && Undisturbed(states[i], events[i])
    ensures Rows(states[|events|]) + Deleted(states, events) == Gained(events)
  {
    forall k | 0 <= k < |events|
      ensures BringsNothingBack(states[k], events[k])
    {
      RunKeepsExact(states, events, k);
      assert Step(states[k], events[k], states[k + 1]);
      if events[k].Publish? {
        ExactShowsAll(states[k].files, states[k].removed, states[k].jobs[events[k].job]);
      }
    }
    RunConservesRows(states, events);
  }

  // ----- The walk along the lineage -----

  function Countdown(from: int, n: nat): (c: seq<int>)
    ensures |c| == n + 1 && forall i | 0 <= i <= n :: c[i] == from - i
  {
    seq(n + 1, i => from - i)
  }

  /** Index and history hold the same snapshots. */
  lemma {:induction false} HistoryIndex(snapshots: seq<L.Snapshot>)
    requires Numbered(snapshots)
    ensures forall id :: id in L.IndexOf(snapshots) <==> 0 <= id < |snapshots|
    ensures forall id | 0 <= id < |snapshots| :: L.IndexOf(snapshots)[id] == snapshots[id]
  {
    L.IndexIsById(snapshots);
    forall id
      ensures id in L.IndexOf(snapshots) <==> 0 <= id < |snapshots|
    {
      if 0 <= id < |snapshots| {
        assert snapshots[id].id == id;
      }
    }
    forall id | 0 <= id < |snapshots|
      ensures L.IndexOf(snapshots)[id] == snapshots[id]
    {
      assert snapshots[id].id == id;
    }
  }

  lemma {:induction false} LinearChain(snapshots: seq<L.Snapshot>, id: nat)
    requires Numbered(snapshots) && id < |snapshots|
    ensures L.Ancestor(L.IndexOf(snapshots), Some(|snapshots| - 1), id)
  {
    var byId := L.IndexOf(snapshots);
    HistoryIndex(snapshots);
    var chain := Countdown(|snapshots| - 1, |snapshots| - 1 - id);
    forall i, j | 0 <= i < j < |chain| && j == i + 1
      ensures L.ParentOf(byId, chain[i], chain[j])
    {
      assert byId[chain[i]] == snapshots[chain[i]];
    }
    assert L.IsLineage(byId, Some(|snapshots| - 1), chain) && chain[|chain| - 1] == id;
  }

  lemma {:induction false} ChainInHistory(snapshots: seq<L.Snapshot>, current: Option<int>, chain: seq<int>, i: nat)
    requires Numbered(snapshots) && current.Some? && 0 <= current.value < |snapshots|
    requires L.IsLineage(L.IndexOf(snapshots), current, chain) && i < |chain|
    ensures 0 <= chain[i] < |snapshots|
  {
    if i > 0 {
      var byId := L.IndexOf(snapshots);
      ChainInHistory(snapshots, current, chain, i - 1);
      HistoryIndex(snapshots);
      L.HasParent(byId, current, chain, i - 1);
      assert byId[chain[i - 1]] == snapshots[chain[i - 1]];
    }
  }

  lemma AncestorsAreHistory(s: State, id: int)
    requires Numbered(s.snapshots)
    ensures L.Ancestor(L.IndexOf(s.snapshots), CurrentId(s), id) <==> 0 <= id < |s.snapshots|
  {
    var byId := L.IndexOf(s.snapshots);
    if L.Ancestor(byId, CurrentId(s), id) {
      var chain :| L.IsLineage(byId, CurrentId(s), chain) && chain[|chain| - 1] == id;
      ChainInHistory(s.snapshots, CurrentId(s), chain, |chain| - 1);
    }
    if 0 <= id < |s.snapshots| {
      LinearChain(s.snapshots, id);
    }
  }

  lemma HistoryNeverRepeats(s: State)
    requires Numbered(s.snapshots)
    ensures L.WalkNeverRepeats(L.IndexOf(s.snapshots), CurrentId(s))
  {
    HistoryIndex(s.snapshots);
    var rank := (id: int) => id;
    forall id | id in L.IndexOf(s.snapshots) && L.IndexOf(s.snapshots)[id].parent.Some?
      ensures rank(L.IndexOf(s.snapshots)[id].parent.value) < rank(id)
    {
      assert L.IndexOf(s.snapshots)[id] == s.snapshots[id];
    }
    L.RankedNeverRepeats(L.IndexOf(s.snapshots), CurrentId(s), rank);
  }

  ghost predicate MarkedByAncestor(s: State, path: string) {
    exists id :: L.Ancestor(L.IndexOf(s.snapshots), CurrentId(s), id) && L.Removes(L.IndexOf(s.snapshots), id, path)
  }

  /** In every reachable state the walk ends and succeeds, and it returns exactly the
      removed paths: the lineage of the current snapshot is the whole history. */
  lemma WalkFindsRemoved(s: State)
    requires Inv(s)
    ensures L.WalkNeverRepeats(L.IndexOf(s.snapshots), CurrentId(s))
    ensures forall id | L.Ancestor(L.IndexOf(s.snapshots), CurrentId(s), id) ::
              L.Readable(L.IndexOf(s.snapshots), id)
    ensures forall p :: p in s.removed <==> MarkedByAncestor(s, p)
  {
    var byId := L.IndexOf(s.snapshots);
    HistoryNeverRepeats(s);
    HistoryIndex(s.snapshots);
    forall id | L.Ancestor(byId, CurrentId(s), id)
      ensures L.Readable(byId, id)
    {
      AncestorsAreHistory(s, id);
      assert byId[id] == s.snapshots[id];
    }
    forall p
      ensures p in s.removed <==> MarkedByAncestor(s, p)
    {
      MarksOfHistory(s, p);
    }
  }

  lemma MarksOfHistory(s: State, path: string)
    requires Numbered(s.snapshots)
    ensures SomeMarks(s.snapshots, path) <==> MarkedByAncestor(s, path)
  {
    var byId := L.IndexOf(s.snapshots);
    HistoryIndex(s.snapshots);
    if SomeMarks(s.snapshots, path) {
      var i :| 0 <= i < |s.snapshots| && path in L.MarkerPaths(s.snapshots[i].marker);
      AncestorsAreHistory(s, i);
      assert L.Removes(byId, i, path);
    }
    if MarkedByAncestor(s, path) {
      var id :| L.Ancestor(byId, CurrentId(s), id) && L.Removes(byId, id, path);
      AncestorsAreHistory(s, id);
      assert byId[id] == s.snapshots[id];
    }
  }
}
