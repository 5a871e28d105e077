/**
Compaction as an append with removal markers (`Compactor::compact` in
crates/teodb-distributed/src/compactor/runner.rs, `try_commit_replace` in
crates/teodb-catalog/src/adapter/commit.rs, `live_data_files` in
crates/teodb-catalog/src/adapter/manifests.rs), running among appends.
*/
module Compaction {
  import opened CompactionFiles

  // ----- Publishing a replace conserves the rows -----

  /** What a replace needs of the table it is published to. */
  ghost predicate Replaceable(files: seq<File>, removed: set<string>, ins: set<string>, res: set<string>) {
    && (forall f | f in files && f.Data? :: Uri(f.loc) !in res)
    && (forall d | d in files && d.Deletes? :: Uri(d.loc) !in ins)
    && (forall d, path | d in files && d.Deletes? && Uri(d.loc) in res && path in d.marks :: path in ins)
  }

  ghost predicate Unmarked(uri: string, files: seq<File>) {
    forall d | d in files && d.Deletes? :: uri !in d.marks
  }

  ghost predicate AllData(files: seq<File>) {
    forall f | f in files :: f.Data?
  }

  /** Removing resolved deletes resurrects no row of a file that is not an input. */
  lemma PublishKeepsDead(
      uri: string, files: seq<File>, outputs: seq<File>, removed: set<string>, ins: set<string>, res: set<string>)
    requires Replaceable(files, removed, ins, res) && AllData(outputs) && uri !in ins
    ensures Dead(uri, files + outputs, removed + ins + res) == Dead(uri, files, removed)
  {
    var before, after := Dead(uri, files, removed), Dead(uri, files + outputs, removed + ins + res);
    forall p | p in before
      ensures p in after
    {
      var d :| d in files && d.Deletes? && Uri(d.loc) !in removed && uri in d.marks && p in d.marks[uri];
      assert d in files + outputs && Uri(d.loc) !in res;
    }
    forall p | p in after
      ensures p in before
    {
      var d :| d in files + outputs && d.Deletes? && Uri(d.loc) !in removed + ins + res
               && uri in d.marks && p in d.marks[uri];
      assert d in files;
    }
  }

  lemma {:induction false} SplitByInput(
      part: seq<File>, files: seq<File>, outputs: seq<File>, removed: set<string>, ins: set<string>, res: set<string>)
    requires Replaceable(files, removed, ins, res) && AllData(outputs)
    requires forall f | f in part :: f in files
    ensures RowsOf(part, files + outputs, removed + ins + res) + InputRows(part, files, removed, ins)
            == RowsOf(part, files, removed)
  {
    if part != [] {
      var f := part[|part| - 1];
      SplitByInput(part[..|part| - 1], files, outputs, removed, ins, res);
      assert f in part;
      if f.Data? && Uri(f.loc) !in ins {
        PublishKeepsDead(Uri(f.loc), files, outputs, removed, ins, res);
      }
    }
  }

  lemma {:induction false} FreshOutputRows(files: seq<File>, outputs: seq<File>, removed: set<string>)
    requires AllData(outputs) && forall f | f in outputs :: Uri(f.loc) !in removed && Unmarked(Uri(f.loc), files)
    ensures RowsOf(outputs, files + outputs, removed) == AllRows(outputs)
  {
    forall f | f in outputs
      ensures Dead(Uri(f.loc), files + outputs, removed) == {}
    {
      assert forall d | d in files + outputs && d.Deletes? :: Uri(f.loc) !in d.marks;
    }
    UnmarkedRows(outputs, files + outputs, removed);
  }

  /** A replace takes what its inputs still contribute and adds what its outputs hold. */
  lemma {:induction false} PublishExchanges(
      files: seq<File>, outputs: seq<File>, removed: set<string>, ins: set<string>, res: set<string>)
    requires Replaceable(files, removed, ins, res) && AllData(outputs)
    requires forall f | f in outputs :: Uri(f.loc) !in removed + ins + res && Unmarked(Uri(f.loc), files)
    ensures LogicalRows(files + outputs, removed + ins + res) + InputRows(files, files, removed, ins)
            == LogicalRows(files, removed) + AllRows(outputs)
  {
    RowsOfConcat(files, outputs, files + outputs, removed + ins + res);
    SplitByInput(files, files, outputs, removed, ins, res);
    FreshOutputRows(files, outputs, removed + ins + res);
  }

  lemma Cancel(a: multiset<Row>, b: multiset<Row>, c: multiset<Row>)
    requires a + c == b + c
    ensures a == b
  {
    forall x
      ensures a[x] == b[x]
    {
      assert (a + c)[x] == (b + c)[x];
    }
  }

  /** An append of unmarked data files adds exactly its rows. */
  lemma {:induction false} AppendAdds(files: seq<File>, added: seq<File>, removed: set<string>)
    requires AllData(added) && forall f | f in added :: Uri(f.loc) !in removed && Unmarked(Uri(f.loc), files)
    ensures LogicalRows(files + added, removed) == LogicalRows(files, removed) + AllRows(added)
  {
    RowsOfConcat(files, added, files + added, removed);
    FreshOutputRows(files, added, removed);
    AppendKeepsDead(files, added, removed);
    SameContributions(files, files, removed, files + added, removed);
  }

  lemma AppendKeepsDead(files: seq<File>, added: seq<File>, removed: set<string>)
    requires AllData(added)
    ensures forall uri :: Dead(uri, files + added, removed) == Dead(uri, files, removed)
  {
    forall uri
      ensures Dead(uri, files + added, removed) == Dead(uri, files, removed)
    {
      forall p
        ensures p in Dead(uri, files + added, removed) <==> p in Dead(uri, files, removed)
      {
        if p in Dead(uri, files, removed) {
          var d :| d in files && d.Deletes? && Uri(d.loc) !in removed && uri in d.marks && p in d.marks[uri];
          assert d in files + added;
        }
      }
    }
  }

  lemma UnmarkedKeepsDead(uri: string, files: seq<File>, added: seq<File>, removed: set<string>)
    requires Unmarked(uri, added)
    ensures Dead(uri, files + added, removed) == Dead(uri, files, removed)
  {
    DeadGrows(uri, files, added, removed);
    forall p | p in Dead(uri, files + added, removed)
      ensures p in Dead(uri, files, removed)
    {
      var d :| d in files + added && d.Deletes? && Uri(d.loc) !in removed && uri in d.marks && p in d.marks[uri];
      assert d in files;
    }
  }

  /** Adding deletes never adds rows. */
  lemma {:induction false} FewerSurvivors(rows: seq<Row>, dead: set<int>, dead': set<int>, n: nat)
    requires n <= |rows| && dead <= dead'
    ensures Survivors(rows, dead', n) <= Survivors(rows, dead, n)
  {
    if n > 0 {
      FewerSurvivors(rows, dead, dead', n - 1);
    }
  }

  lemma DeadGrows(uri: string, files: seq<File>, added: seq<File>, removed: set<string>)
    ensures Dead(uri, files, removed) <= Dead(uri, files + added, removed)
  {
    forall p | p in Dead(uri, files, removed)
      ensures p in Dead(uri, files + added, removed)
    {
      var d :| d in files && d.Deletes? && Uri(d.loc) !in removed && uri in d.marks && p in d.marks[uri];
      assert d in files + added;
    }
  }

  lemma {:induction false} DeletesOnlyTake(part: seq<File>, files: seq<File>, added: seq<File>, removed: set<string>)
    ensures RowsOf(part, files + added, removed) <= RowsOf(part, files, removed)
  {
    if part != [] {
      var f := part[|part| - 1];
      DeletesOnlyTake(part[..|part| - 1], files, added, removed);
      if f.Data? && Uri(f.loc) !in removed {
        DeadGrows(Uri(f.loc), files, added, removed);
        FewerSurvivors(f.rows, Dead(Uri(f.loc), files, removed), Dead(Uri(f.loc), files + added, removed), |f.rows|);
      }
    }
  }

  lemma {:induction false} DeleteFilesHoldNoRows(part: seq<File>, files: seq<File>, removed: set<string>)
    requires forall f | f in part :: f.Deletes?
    ensures RowsOf(part, files, removed) == multiset{}
  {
    if part != [] {
      DeleteFilesHoldNoRows(part[..|part| - 1], files, removed);
      assert part[|part| - 1] in part;
    }
  }

  // ----- The scan of the inputs -----

  ghost predicate DistinctUris(files: seq<File>) {
    forall i, j | 0 <= i < j < |files| :: Uri(files[i].loc) != Uri(files[j].loc)
  }

  lemma SameUriSameFile(files: seq<File>, f: File, g: File)
    requires DistinctUris(files) && f in files && g in files && Uri(f.loc) == Uri(g.loc)
    ensures f == g
  {
    var i :| 0 <= i < |files| && files[i] == f;
    var j :| 0 <= j < |files| && files[j] == g;
  }

  lemma {:induction false} OneMoreInput(
      part: seq<File>, files: seq<File>, removed: set<string>, ins: set<string>, f: File)
    requires DistinctUris(part) && Uri(f.loc) !in ins
    requires forall g | g in part && Uri(g.loc) == Uri(f.loc) :: g == f
    ensures InputRows(part, files, removed, ins + {Uri(f.loc)})
            == InputRows(part, files, removed, ins) + if f in part then Contribution(f, files, removed) else multiset{}
  {
    if part != [] {
      var n := |part| - 1;
      assert part == part[..n] + [part[n]];
      OneMoreInput(part[..n], files, removed, ins, f);
      if part[n] == f {
        assert f !in part[..n];
      }
    }
  }

  lemma {:induction false} NoInputs(part: seq<File>, files: seq<File>, removed: set<string>)
    ensures InputRows(part, files, removed, {}) == multiset{}
  {
    if part != [] {
      NoInputs(part[..|part| - 1], files, removed);
    }
  }

  /** Reading the inputs one after the other reads what they contribute to the table. */
  lemma {:induction false} InputsInTable(inputs: seq<File>, files: seq<File>, removed: set<string>)
    requires DistinctUris(files) && DistinctUris(inputs) && forall f | f in inputs :: f in files
    ensures InputRows(files, files, removed, Uris(inputs)) == RowsOf(inputs, files, removed)
  {
    if inputs == [] {
      assert Uris(inputs) == {};
      NoInputs(files, files, removed);
    } else {
      var n := |inputs| - 1;
      var f := inputs[n];
      assert inputs == inputs[..n] + [f];
      assert Uri(f.loc) !in Uris(inputs[..n]);
      assert Uris(inputs) == Uris(inputs[..n]) + {Uri(f.loc)};
      forall g | g in files && Uri(g.loc) == Uri(f.loc)
        ensures g == f
      {
        SameUriSameFile(files, g, f);
      }
      OneMoreInput(files, files, removed, Uris(inputs[..n]), f);
      InputsInTable(inputs[..n], files, removed);
    }
  }

  /** Live position deletes of one partition, as the plan carries them. */
  function PlanDeletes(files: seq<File>, removed: set<string>, partition: nat): (r: seq<File>)
    ensures forall d :: d in r <==> d in files && d.Deletes? && Uri(d.loc) !in removed && d.partition == partition
  {
    if files == [] then []
    else
      var d := files[|files| - 1];
      assert files == files[..|files| - 1] + [d];
      PlanDeletes(files[..|files| - 1], removed, partition)
      + if d.Deletes? && Uri(d.loc) !in removed && d.partition == partition then [d] else []
  }

  /** Position deletes lie in the partition of the files they mark. */
  ghost predicate MarksLocal(files: seq<File>) {
    forall d, path | d in files && d.Deletes? && path in d.marks ::
      exists g :: g in files && g.Data? && Uri(g.loc) == path && g.partition == d.partition
  }

  lemma {:induction false} PlanDeletesSuffice(files: seq<File>, removed: set<string>, f: File)
    requires DistinctUris(files) && MarksLocal(files) && f in files && f.Data?
    ensures Dead(Uri(f.loc), PlanDeletes(files, removed, f.partition), {}) == Dead(Uri(f.loc), files, removed)
  {
    var deletes := PlanDeletes(files, removed, f.partition);
    forall p | p in Dead(Uri(f.loc), files, removed)
      ensures p in Dead(Uri(f.loc), deletes, {})
    {
      var d :| d in files && d.Deletes? && Uri(d.loc) !in removed && Uri(f.loc) in d.marks && p in d.marks[Uri(f.loc)];
      var g :| g in files && g.Data? && Uri(g.loc) == Uri(f.loc) && g.partition == d.partition;
      SameUriSameFile(files, f, g);
      assert d in deletes;
    }
  }

  /** What a plan read of its inputs beyond what the table still shows of them. */
  ghost function Excess(inputs: seq<File>, deletes: seq<File>, files: seq<File>, removed: set<string>): multiset<Row> {
    if inputs == [] then multiset{}
    else
      var f := inputs[|inputs| - 1];
      Excess(inputs[..|inputs| - 1], deletes, files, removed)
      + (Contribution(f, deletes, {}) - Contribution(f, files, removed))
  }

  /** The table shows no more of any input than the plan read. */
  ghost predicate ReadsAll(inputs: seq<File>, deletes: seq<File>, files: seq<File>, removed: set<string>) {
    forall f | f in inputs :: Contribution(f, files, removed) <= Contribution(f, deletes, {})
  }

  ghost predicate ShowsAll(inputs: seq<File>, deletes: seq<File>, files: seq<File>, removed: set<string>) {
    forall f | f in inputs :: Contribution(f, files, removed) == Contribution(f, deletes, {})
  }

  /** More dead positions, or the removal of the file, only take rows away. */
  lemma ShowsLess(f: File, deletes: seq<File>, files: seq<File>, removed: set<string>)
    requires Uri(f.loc) !in removed ==> Dead(Uri(f.loc), deletes, {}) <= Dead(Uri(f.loc), files, removed)
    ensures Contribution(f, files, removed) <= Contribution(f, deletes, {})
  {
    if f.Data? && Uri(f.loc) !in removed {
      FewerSurvivors(f.rows, Dead(Uri(f.loc), deletes, {}), Dead(Uri(f.loc), files, removed), |f.rows|);
    }
  }

  lemma AddDifference(a: multiset<Row>, b: multiset<Row>, some: multiset<Row>, all: multiset<Row>)
    requires some <= all
    ensures a + b + all == (a + some) + (b + (all - some))
  {
    assert all == some + (all - some);
  }

  /** The scan reads what the inputs contribute to the table, and the excess. */
  lemma {:induction false} ScanSplits(
      inputs: seq<File>, deletes: seq<File>, files: seq<File>, removed: set<string>)
    requires ReadsAll(inputs, deletes, files, removed)
    ensures RowsOf(inputs, deletes, {}) == RowsOf(inputs, files, removed) + Excess(inputs, deletes, files, removed)
  {
    if inputs != [] {
      var n := |inputs| - 1;
      var f := inputs[n];
      assert f in inputs && forall g | g in inputs[..n] :: g in inputs;
      ScanSplits(inputs[..n], deletes, files, removed);
      AddDifference(RowsOf(inputs[..n], files, removed), Excess(inputs[..n], deletes, files, removed),
                    Contribution(f, files, removed), Contribution(f, deletes, {}));
    }
  }

  lemma EmptyDifference(some: multiset<Row>, all: multiset<Row>)
    requires some <= all
    ensures all - some == multiset{} <==> some == all
  {
    assert all == some + (all - some);
  }

  lemma {:induction false} ExcessIsEmpty(
      inputs: seq<File>, deletes: seq<File>, files: seq<File>, removed: set<string>)
    requires ReadsAll(inputs, deletes, files, removed)
    ensures Excess(inputs, deletes, files, removed) == multiset{} <==> ShowsAll(inputs, deletes, files, removed)
  {
    if inputs != [] {
      var n := |inputs| - 1;
      assert inputs == inputs[..n] + [inputs[n]];
      ExcessIsEmpty(inputs[..n], deletes, files, removed);
      EmptyDifference(Contribution(inputs[n], files, removed), Contribution(inputs[n], deletes, {}));
    }
  }
}
