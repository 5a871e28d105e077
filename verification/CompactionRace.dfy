/**
What can land between a compaction's check of its base snapshot and its publication:
another compaction of the same input, whose rows then come back, or a position delete,
which is then undone (`try_commit_replace` in
crates/teodb-catalog/src/adapter/commit.rs checks before its transaction reloads the
table).
*/
module CompactionRace {
  import opened CompactionFiles
  import opened Compaction
  import opened CompactionCount
  import opened CompactionRun

  lemma {:induction false} AllBack(inputs: seq<File>, deletes: seq<File>, files: seq<File>, removed: set<string>)
    requires forall f | f in inputs :: Uri(f.loc) in removed
    ensures Excess(inputs, deletes, files, removed) == RowsOf(inputs, deletes, {})
  {
    if inputs != [] {
      var n := |inputs| - 1;
      assert inputs == inputs[..n] + [inputs[n]];
      AllBack(inputs[..n], deletes, files, removed);
    }
  }

  /** If two compactions have passed their check and the first to publish takes all
      inputs of the second, the second puts every row of its inputs back. */
  lemma SecondPublishDoubles(s: State, j: nat, k: nat, s': State, s'': State)
    requires Inv(s) && j != k && Step(s, Publish(j), s') && Step(s', Publish(k), s'')
    requires Uris(s.jobs[k].inputs) <= Uris(s.jobs[j].inputs)
    ensures Rows(s'') == Rows(s') + RowsOf(s.jobs[k].inputs, s.jobs[k].deletes, {})
  {
    var job := s.jobs[k];
    StepKeepsInv(s, Publish(j), s');
    PublishRows(s', k, s'');
    forall f | f in job.inputs
      ensures Uri(f.loc) in s'.removed
    {
      assert Uri(f.loc) in Uris(job.inputs);
    }
    AllBack(job.inputs, job.deletes, s'.files, s'.removed);
  }

  function OneRow(key: string): File {
    Data(Location("/", key), 0, [7])
  }

  lemma KeysApart(key: string, key': string)
    requires |key| == |key'| == 1
    ensures Uri(OneRow(key).loc) == "/" + key
    ensures Uri(OneRow(key').loc) != key
    ensures PathSuffix(key, Uri(OneRow(key').loc)) <==> key == key'
  {
    var uri := "/" + key';
    assert |uri| == 2 && uri[0..] == uri && uri[1..] == key';
    assert ("/" + key)[1..] == key;
  }

  lemma OneRowFiles()
    ensures DistinctUris([OneRow("f"), OneRow("g"), OneRow("h")])
    ensures NoClashes([OneRow("f"), OneRow("g"), OneRow("h")])
  {
    var files := [OneRow("f"), OneRow("g"), OneRow("h")];
    forall x, y | x in files && y in files
      ensures Uri(x.loc) == "/" + x.loc.key
      ensures Uri(y.loc) != x.loc.key && (PathSuffix(x.loc.key, Uri(y.loc)) ==> Uri(x.loc) == Uri(y.loc))
    {
      KeysApart(x.loc.key, y.loc.key);
    }
    forall i, j | 0 <= i < j < |files|
      ensures Uri(files[i].loc) != Uri(files[j].loc)
    {
      assert Uri(files[i].loc)[1] != Uri(files[j].loc)[1];
    }
  }

  lemma FreshPrefixes(f: File, g: File, h: File)
    requires DistinctUris([f, g, h]) && NoClashes([f, g, h])
    ensures FreshFiles([], [f]) && FreshFiles([f], [g]) && FreshFiles([f, g], [h])
  {
    assert [] + [f] == [f] && [f] + [g] == [f, g] && [f, g] + [h] == [f, g, h];
    FewerClashes([f, g, h], [f]);
    FewerClashes([f, g, h], [f, g]);
    DistinctParts([f, g], [h]);
  }

  lemma RewritesOneRow(f: File, g: File)
    requires f.Data? && g.Data? && f.rows == g.rows == [7]
    ensures AllRows([g]) == RowsOf([f], [], {}) == Contribution(f, [], {}) == multiset{7}
    ensures ConservesRows([f], [g], CountedRows([f], []))
  {
    assert [f][..0] == [] && [g][..0] == [];
    assert Dead(Uri(f.loc), [], {}) == {};
    SurvivorsOfLiving(f.rows, 1);
    assert f.rows[..1] == [7] && multiset([7]) == multiset{7};
    assert TotalRows([f]) == TotalRows([g]) == 1;
  }

  /** The state with file `f` in the table and two compactions of it under way. */
  function Racing(f: File, jobs: map<nat, Job>, known: seq<File>): State {
    State([f], {}, [NextSnapshot([], L.NoMarker)], jobs, known)
  }

  ghost predicate OneRowData(f: File) {
    f.Data? && f.rows == [7] && f.partition == 0
  }

  lemma RaceStarts(f: File)
    requires OneRowData(f) && FreshFiles([], [f])
    ensures Step(EMPTY, Append([f]), Racing(f, map[], [f]))
  {
    assert [] + [f] == [f];
  }

  lemma RacePlan(f: File, j: nat, jobs: map<nat, Job>)
    requires OneRowData(f) && j !in jobs
    ensures Step(Racing(f, jobs, [f]), Plan(j, 0, [f]), Racing(f, jobs[j := Planned(1, [f], [])], [f]))
  {
    assert PlanDeletes([f], {}, 0) == [] by {
      assert [f][..0] == [];
    }
  }

  lemma RaceWrites(f: File, g: File, h: File)
    requires OneRowData(f) && OneRowData(g) && OneRowData(h)
    requires FreshFiles([f], [g]) && FreshFiles([f, g], [h])
    ensures Step(Racing(f, map[0 := Planned(1, [f], []), 1 := Planned(1, [f], [])], [f]), Write(0, [g]),
                 Racing(f, map[0 := Written(1, [f], [], [g]), 1 := Planned(1, [f], [])], [f, g]))
    ensures Step(Racing(f, map[0 := Written(1, [f], [], [g]), 1 := Planned(1, [f], [])], [f, g]), Write(1, [h]),
                 Racing(f, map[0 := Written(1, [f], [], [g]), 1 := Written(1, [f], [], [h])], [f, g, h]))
  {
    RewritesOneRow(f, g);
    RewritesOneRow(f, h);
    assert [f] + [g] == [f, g] && [f, g] + [h] == [f, g, h];
  }

  lemma RaceChecks(f: File, g: File, h: File)
    ensures Step(Racing(f, map[0 := Written(1, [f], [], [g]), 1 := Written(1, [f], [], [h])], [f, g, h]), Check(0),
                 Racing(f, map[0 := Checked([f], [], [g]), 1 := Written(1, [f], [], [h])], [f, g, h]))
    ensures Step(Racing(f, map[0 := Checked([f], [], [g]), 1 := Written(1, [f], [], [h])], [f, g, h]), Check(1),
                 Racing(f, map[0 := Checked([f], [], [g]), 1 := Checked([f], [], [h])], [f, g, h]))
  {
  }

  function PlanEvents(f: File): seq<Event> {
    [] + [Append([f])] + [Plan(0, 0, [f])] + [Plan(1, 0, [f])]
  }

  function RaceEvents(f: File, g: File, h: File): seq<Event> {
    PlanEvents(f) + [Write(0, [g])] + [Write(1, [h])] + [Check(0)] + [Check(1)]
  }

  ghost predicate Reached(events: seq<Event>, s: State) {
    exists states :: Run(states, events) && states[|events|] == s
  }

  lemma ExtendRun(events: seq<Event>, s: State, ev: Event, s': State)
    requires Reached(events, s) && Step(s, ev, s')
    ensures Reached(events + [ev], s')
  {
    var states :| Run(states, events) && states[|events|] == s;
    var longer := states + [s'];
    forall k | 0 <= k < |events| + 1
      ensures Step(longer[k], (events + [ev])[k], longer[k + 1])
    {
      if k < |events| {
        assert Step(states[k], events[k], states[k + 1]);
      }
    }
    assert Run(longer, events + [ev]);
  }

  lemma RacePlanned(events: seq<Event>, f: File)
    requires OneRowData(f) && FreshFiles([], [f]) && Reached(events, EMPTY)
    ensures Reached(events + [Append([f])] + [Plan(0, 0, [f])] + [Plan(1, 0, [f])],
                    Racing(f, map[0 := Planned(1, [f], []), 1 := Planned(1, [f], [])], [f]))
  {
    var p := Planned(1, [f], []);
    RaceStarts(f);
    RacePlan(f, 0, map[]);
    RacePlan(f, 1, map[0 := p]);
    assert map[0 := p][1 := p] == map[0 := p, 1 := p];
    ExtendRun(events, EMPTY, Append([f]), Racing(f, map[], [f]));
    ExtendRun(events + [Append([f])], Racing(f, map[], [f]), Plan(0, 0, [f]), Racing(f, map[0 := p], [f]));
    ExtendRun(events + [Append([f])] + [Plan(0, 0, [f])],
              Racing(f, map[0 := p], [f]), Plan(1, 0, [f]), Racing(f, map[0 := p, 1 := p], [f]));
  }

  lemma RaceWritten(events: seq<Event>, f: File, g: File, h: File)
    requires OneRowData(f) && OneRowData(g) && OneRowData(h)
    requires FreshFiles([f], [g]) && FreshFiles([f, g], [h])
    requires Reached(events, Racing(f, map[0 := Planned(1, [f], []), 1 := Planned(1, [f], [])], [f]))
    ensures Reached(events + [Write(0, [g])] + [Write(1, [h])],
                    Racing(f, map[0 := Written(1, [f], [], [g]), 1 := Written(1, [f], [], [h])], [f, g, h]))
  {
    RaceWrites(f, g, h);
    var p, v, w := Planned(1, [f], []), Written(1, [f], [], [g]), Written(1, [f], [], [h]);
    ExtendRun(events, Racing(f, map[0 := p, 1 := p], [f]), Write(0, [g]), Racing(f, map[0 := v, 1 := p], [f, g]));
    ExtendRun(events + [Write(0, [g])], Racing(f, map[0 := v, 1 := p], [f, g]),
              Write(1, [h]), Racing(f, map[0 := v, 1 := w], [f, g, h]));
  }

  lemma RaceChecked(events: seq<Event>, f: File, g: File, h: File)
    requires Reached(events,
                     Racing(f, map[0 := Written(1, [f], [], [g]), 1 := Written(1, [f], [], [h])], [f, g, h]))
    ensures Reached(events + [Check(0)] + [Check(1)],
                    Racing(f, map[0 := Checked([f], [], [g]), 1 := Checked([f], [], [h])], [f, g, h]))
  {
    RaceChecks(f, g, h);
    var v, w := Written(1, [f], [], [g]), Written(1, [f], [], [h]);
    var c, d := Checked([f], [], [g]), Checked([f], [], [h]);
    ExtendRun(events, Racing(f, map[0 := v, 1 := w], [f, g, h]), Check(0),
              Racing(f, map[0 := c, 1 := w], [f, g, h]));
    ExtendRun(events + [Check(0)], Racing(f, map[0 := c, 1 := w], [f, g, h]), Check(1),
              Racing(f, map[0 := c, 1 := d], [f, g, h]));
  }

  /** A run in which two compactions of one file are both past their check. */
  lemma RaceRun(f: File, g: File, h: File)
    requires OneRowData(f) && OneRowData(g) && OneRowData(h)
    requires FreshFiles([], [f]) && FreshFiles([f], [g]) && FreshFiles([f, g], [h])
    ensures Reached(RaceEvents(f, g, h),
                    Racing(f, map[0 := Checked([f], [], [g]), 1 := Checked([f], [], [h])], [f, g, h]))
  {
    assert Run([EMPTY], []);
    RacePlanned([], f);
    RaceWritten(PlanEvents(f), f, g, h);
    RaceChecked(PlanEvents(f) + [Write(0, [g])] + [Write(1, [h])], f, g, h);
  }

  lemma ReachedKeepsInv(events: seq<Event>, s: State)
    requires Reached(events, s)
    ensures Inv(s)
  {
    var states :| Run(states, events) && states[|events|] == s;
    RunKeepsInv(states, events, |events|);
  }

  lemma OneRowTable(f: File)
    requires OneRowData(f)
    ensures LogicalRows([f], {}) == RowsOf([f], [], {}) == multiset{7}
  {
    RewritesOneRow(f, f);
    assert Dead(Uri(f.loc), [f], {}) == Dead(Uri(f.loc), [], {});
    SameContributions([f], [f], {}, [], {});
  }

  lemma {:induction false} OneInputExcess(f: File, files: seq<File>, removed: set<string>)
    requires OneRowData(f)
    ensures Excess([f], [], files, removed) == multiset{7} - Contribution(f, files, removed)
    ensures RowsOf([f], files, removed) == Contribution(f, files, removed)
  {
    RewritesOneRow(f, f);
    assert [f][..0] == [];
  }

  lemma PublishBothRows(s: State, f: File, g: File, h: File, s': State, s'': State)
    requires Inv(s) && OneRowData(f) && s.files == [f] && s.removed == {}
    requires s.jobs == map[0 := Checked([f], [], [g]), 1 := Checked([f], [], [h])]
    requires Step(s, Publish(0), s') && Step(s', Publish(1), s'')
    ensures Rows(s) == Rows(s') == multiset{7} && Rows(s'') == multiset{7, 7}
  {
    FirstPublishRows(s, f, g, s');
    SecondPublishRows(s, f, s', s'');
  }

  lemma SecondPublishRows(s: State, f: File, s': State, s'': State)
    requires Inv(s) && OneRowData(f) && 0 in s.jobs && 1 in s.jobs
    requires s.jobs[0].inputs == s.jobs[1].inputs == [f] && s.jobs[1].deletes == []
    requires Step(s, Publish(0), s') && Step(s', Publish(1), s'')
    ensures Rows(s'') == Rows(s') + multiset{7}
  {
    OneRowTable(f);
    SecondPublishDoubles(s, 0, 1, s', s'');
  }

  lemma FirstPublishRows(s: State, f: File, g: File, s': State)
    requires Inv(s) && OneRowData(f) && s.files == [f] && s.removed == {}
    requires 0 in s.jobs && s.jobs[0] == Checked([f], [], [g]) && Step(s, Publish(0), s')
    ensures Rows(s) == Rows(s') == multiset{7}
  {
    OneRowTable(f);
    PublishRows(s, 0, s');
    OneInputExcess(f, [f], {});
  }

  lemma PublishBoth(s: State, f: File, g: File, h: File) returns (s': State, s'': State)
    requires s.jobs == map[0 := Checked([f], [], [g]), 1 := Checked([f], [], [h])]
    ensures Step(s, Publish(0), s') && Step(s', Publish(1), s'')
  {
    s' := Next(s, Publish(0));
    assert 1 in s'.jobs && s'.jobs[1].Checked?;
    s'' := Next(s', Publish(1));
  }

  lemma RaceState(f: File, g: File, h: File) returns (s: State)
    requires OneRowData(f) && OneRowData(g) && OneRowData(h)
    requires FreshFiles([], [f]) && FreshFiles([f], [g]) && FreshFiles([f, g], [h])
    ensures Reached(RaceEvents(f, g, h), s) && Inv(s) && s.files == [f] && s.removed == {} && s.known == [f, g, h]
    ensures s.jobs == map[0 := Checked([f], [], [g]), 1 := Checked([f], [], [h])]
  {
    s := Racing(f, map[0 := Checked([f], [], [g]), 1 := Checked([f], [], [h])], [f, g, h]);
    RaceRun(f, g, h);
    ReachedKeepsInv(RaceEvents(f, g, h), s);
  }

  /** Both publish, and the one row that was appended is in the table twice. */
  lemma TwoCompactionsDouble() returns (s: State, s': State, s'': State)
    ensures Reached(RaceEvents(OneRow("f"), OneRow("g"), OneRow("h")), s)
    ensures Step(s, Publish(0), s') && Step(s', Publish(1), s'')
    ensures Rows(s) == Rows(s') == multiset{7} && Rows(s'') == multiset{7, 7}
  {
    var f, g, h := OneRow("f"), OneRow("g"), OneRow("h");
    OneRowFiles();
    FreshPrefixes(f, g, h);
    s := RaceState(f, g, h);
    s', s'' := PublishBoth(s, f, g, h);
    PublishBothRows(s, f, g, h, s', s'');
  }

  lemma LateDeleteIsNew(f: File, g: File, h: File, d: File)
    requires f == OneRow("f") && g == OneRow("g") && h == OneRow("h") && d == MarksFirst("d")
    ensures FreshFiles([f, g, h], [d]) && MarksKnownFiles([f], [d])
  {
    OneRowFiles();
    assert Uri(f.loc) == "/f" && Uri(g.loc) == "/g" && Uri(h.loc) == "/h" && Uri(d.loc) == "/d";
    assert "/d"[1] != "/f"[1] && "/d"[1] != "/g"[1] && "/d"[1] != "/h"[1];
    DistinctConcat([f, g, h], [d]);
    assert f in [f];
  }

  lemma RowsUnderDelete(f: File, d: File)
    requires f == OneRow("f") && d == MarksFirst("d")
    ensures Contribution(f, [f, d], {}) == LogicalRows([f, d], {}) == multiset{}
  {
    var files := [f, d];
    assert Uri(f.loc) == "/f" && d in files && 0 in d.marks["/f"];
    assert Dead("/f", files, {}) == {0};
    assert Survivors([7], {0}, 1) == Survivors([7], {0}, 0);
    assert files[..1] == [f] && [f][..0] == [];
    assert RowsOf([f], files, {}) == multiset{} + Contribution(f, files, {});
  }

  lemma LateDeleteSteps(s: State, f: File, g: File, h: File, d: File) returns (s': State, s'': State)
    requires s.files == [f] && s.known == [f, g, h] && FreshFiles([f, g, h], [d]) && MarksKnownFiles([f], [d])
    requires s.jobs == map[0 := Checked([f], [], [g]), 1 := Checked([f], [], [h])] && d.Deletes?
    ensures Step(s, AddDeletes([d]), s') && Step(s', Publish(0), s'')
    ensures s'.files == [f, d] && s'.removed == s.removed && s'.jobs == s.jobs
  {
    s' := AddFiles(s, [d]);
    s'' := Next(s', Publish(0));
  }

  lemma LateDeleteRows(s': State, f: File, g: File, d: File, s'': State)
    requires Inv(s') && f == OneRow("f") && d == MarksFirst("d") && s'.files == [f, d] && s'.removed == {}
    requires 0 in s'.jobs && s'.jobs[0] == Checked([f], [], [g]) && Step(s', Publish(0), s'')
    ensures Rows(s') == multiset{} && Rows(s'') == multiset{7}
  {
    RowsUnderDelete(f, d);
    PublishRows(s', 0, s'');
    OneInputExcess(f, [f, d], {});
  }

  /** A delete takes the only row while a compaction of its file is past the check; the
      publication brings the row back. */
  lemma LateDeleteUndone() returns (s: State, s': State, s'': State)
    ensures Reached(RaceEvents(OneRow("f"), OneRow("g"), OneRow("h")), s)
    ensures Step(s, AddDeletes([MarksFirst("d")]), s') && Step(s', Publish(0), s'')
    ensures Rows(s') == multiset{} && Rows(s'') == multiset{7}
  {
    var f, g, h, d := OneRow("f"), OneRow("g"), OneRow("h"), MarksFirst("d");
    OneRowFiles();
    FreshPrefixes(f, g, h);
    s := RaceState(f, g, h);
    LateDeleteIsNew(f, g, h, d);
    s', s'' := LateDeleteSteps(s, f, g, h, d);
    StepKeepsInv(s, AddDeletes([d]), s');
    LateDeleteRows(s', f, g, d, s'');
  }
}
