/**
What the row-count check before a compaction commits can and cannot tell
(`verify_row_conservation` in
crates/teodb-distributed/src/compactor/execution.rs).
*/
module CompactionCount {
  import opened Wrappers
  import opened CompactionFiles
  import opened Compaction

  function TotalRows(files: seq<File>): nat {
    if files == [] then 0
    else TotalRows(files[..|files| - 1]) + if files[|files| - 1].Data? then |files[|files| - 1].rows| else 0
  }

  function SaturatingSub(a: nat, b: nat): nat {
    if a >= b then a - b else 0
  }

  predicate ConservesRows(inputs: seq<File>, outputs: seq<File>, deletedRows: nat) {
    TotalRows(outputs) == SaturatingSub(TotalRows(inputs), deletedRows)
  }

  // ----- Counting rows and dead positions -----

  lemma {:induction false} AllRowsSize(files: seq<File>)
    ensures |AllRows(files)| == TotalRows(files)
  {
    if files != [] {
      AllRowsSize(files[..|files| - 1]);
    }
  }

  /** Dead positions inside the file. */
  ghost function DeadIn(f: File, deletes: seq<File>): set<nat> {
    InRange(Dead(Uri(f.loc), deletes, {}), f)
  }

  ghost function Below(dead: set<int>, n: nat): set<nat> {
    set p: nat | p in dead && p < n
  }

  lemma BelowSize(dead: set<int>, n: nat)
    requires n > 0
    ensures |Below(dead, n)| == |Below(dead, n - 1)| + if n - 1 in dead then 1 else 0
  {
    var last: nat := n - 1;
    if last in dead {
      assert Below(dead, n) == Below(dead, last) + {last};
      assert last !in Below(dead, last);
    } else {
      assert Below(dead, n) == Below(dead, last);
    }
  }

  lemma {:induction false} SurvivorsSize(rows: seq<Row>, dead: set<int>, n: nat)
    requires n <= |rows|
    ensures |Survivors(rows, dead, n)| + |Below(dead, n)| == n
  {
    if n == 0 {
      assert Below(dead, 0) == {};
    } else {
      SurvivorsSize(rows, dead, n - 1);
      BelowSize(dead, n);
    }
  }

  /** Every dead position of every input, named by the input's URI. */
  ghost function DeadMarks(inputs: seq<File>, deletes: seq<File>): set<(string, nat)> {
    if inputs == [] then {}
    else
      var f := inputs[|inputs| - 1];
      DeadMarks(inputs[..|inputs| - 1], deletes) + At(Uri(f.loc), DeadIn(f, deletes))
  }

  lemma {:induction false} DeadMarksIn(inputs: seq<File>, deletes: seq<File>, path: string, p: nat)
    ensures (path, p) in DeadMarks(inputs, deletes) <==>
            exists i :: 0 <= i < |inputs| && Uri(inputs[i].loc) == path && p in DeadIn(inputs[i], deletes)
  {
    if inputs != [] {
      var n := |inputs| - 1;
      DeadMarksIn(inputs[..n], deletes, path, p);
      forall i | 0 <= i < n
        ensures inputs[i] == inputs[..n][i]
      {
      }
    }
  }

  lemma ContributionSize(f: File, deletes: seq<File>)
    requires f.Data?
    ensures |Contribution(f, deletes, {})| + |DeadIn(f, deletes)| == |f.rows|
  {
    SurvivorsSize(f.rows, Dead(Uri(f.loc), deletes, {}), |f.rows|);
    assert Below(Dead(Uri(f.loc), deletes, {}), |f.rows|) == DeadIn(f, deletes);
  }

  lemma {:induction false} DeadMarksSize(inputs: seq<File>, deletes: seq<File>, f: File)
    requires forall g | g in inputs :: Uri(g.loc) != Uri(f.loc)
    ensures |DeadMarks(inputs, deletes) + At(Uri(f.loc), DeadIn(f, deletes))|
            == |DeadMarks(inputs, deletes)| + |DeadIn(f, deletes)|
  {
    SizeAt(Uri(f.loc), DeadIn(f, deletes));
    forall mark | mark in DeadMarks(inputs, deletes)
      ensures mark !in At(Uri(f.loc), DeadIn(f, deletes))
    {
      DeadMarksIn(inputs, deletes, mark.0, mark.1);
    }
    assert DeadMarks(inputs, deletes) !! At(Uri(f.loc), DeadIn(f, deletes));
  }

  /** Scanning the inputs leaves all rows but the dead ones. */
  lemma {:induction false} ScanSize(inputs: seq<File>, deletes: seq<File>)
    requires DistinctUris(inputs) && AllData(inputs)
    ensures |RowsOf(inputs, deletes, {})| + |DeadMarks(inputs, deletes)| == TotalRows(inputs)
  {
    if inputs != [] {
      var n := |inputs| - 1;
      var f := inputs[n];
      assert f in inputs;
      assert forall g | g in inputs[..n] :: g in inputs;
      ScanSize(inputs[..n], deletes);
      ContributionSize(f, deletes);
      DeadMarksSize(inputs[..n], deletes, f);
    }
  }

  // ----- Counted marks against dead positions -----

  /** An entry refers to an input only by the input's own URI. */
  ghost predicate ExactEntries(inputs: seq<File>, deletes: seq<File>) {
    forall d, path, f | d in deletes && d.Deletes? && path in d.marks && f in inputs && RefersTo(path, f.loc) ::
      path == Uri(f.loc)
  }

  ghost function MarksOf(inputs: seq<File>, d: File): set<(string, nat)> {
    if d.Deletes? then Counted(inputs, d.marks, d.marks.Keys) else {}
  }

  ghost function AllMarks(inputs: seq<File>, deletes: seq<File>): set<(string, nat)> {
    if deletes == [] then {}
    else AllMarks(inputs, deletes[..|deletes| - 1]) + MarksOf(inputs, deletes[|deletes| - 1])
  }

  ghost predicate MarkedTwice(inputs: seq<File>, deletes: seq<File>) {
    exists i, j | 0 <= i < j < |deletes| :: MarksOf(inputs, deletes[i]) * MarksOf(inputs, deletes[j]) != {}
  }

  lemma {:induction false} AllMarksIn(inputs: seq<File>, deletes: seq<File>, mark: (string, nat))
    ensures mark in AllMarks(inputs, deletes) <==> exists i :: 0 <= i < |deletes| && mark in MarksOf(inputs, deletes[i])
  {
    if deletes != [] {
      var n := |deletes| - 1;
      AllMarksIn(inputs, deletes[..n], mark);
      forall i | 0 <= i < n
        ensures deletes[i] == deletes[..n][i]
      {
      }
    }
  }

  lemma UnionSize(a: set<(string, nat)>, b: set<(string, nat)>)
    ensures |a + b| <= |a| + |b| && (|a + b| == |a| + |b| <==> a * b == {})
  {
    assert |a + b| + |a * b| == |a| + |b|;
  }

  lemma {:induction false} TwiceIn(inputs: seq<File>, deletes: seq<File>)
    requires deletes != []
    ensures var n := |deletes| - 1;
            MarkedTwice(inputs, deletes) <==>
            MarkedTwice(inputs, deletes[..n]) || AllMarks(inputs, deletes[..n]) * MarksOf(inputs, deletes[n]) != {}
  {
    var n := |deletes| - 1;
    forall i | 0 <= i < n
      ensures deletes[i] == deletes[..n][i]
    {
    }
    if i, j :| 0 <= i < j < |deletes| && MarksOf(inputs, deletes[i]) * MarksOf(inputs, deletes[j]) != {} {
      if j < n {
        assert MarksOf(inputs, deletes[..n][i]) * MarksOf(inputs, deletes[..n][j]) != {};
      } else {
        var mark :| mark in MarksOf(inputs, deletes[i]) * MarksOf(inputs, deletes[n]);
        assert mark in MarksOf(inputs, deletes[..n][i]);
        AllMarksIn(inputs, deletes[..n], mark);
        assert mark in AllMarks(inputs, deletes[..n]) * MarksOf(inputs, deletes[n]);
      }
    }
    if mark :| mark in AllMarks(inputs, deletes[..n]) * MarksOf(inputs, deletes[n]) {
      AllMarksIn(inputs, deletes[..n], mark);
      var i :| 0 <= i < n && mark in MarksOf(inputs, deletes[..n][i]);
      assert mark in MarksOf(inputs, deletes[i]) * MarksOf(inputs, deletes[n]);
    }
  }

  /** The counter counts a position once per delete file that marks it. */
  lemma {:induction false} CountedIsUnion(inputs: seq<File>, deletes: seq<File>)
    ensures |AllMarks(inputs, deletes)| <= CountedRows(inputs, deletes)
    ensures |AllMarks(inputs, deletes)| == CountedRows(inputs, deletes) <==> !MarkedTwice(inputs, deletes)
  {
    if deletes != [] {
      var n := |deletes| - 1;
      CountedIsUnion(inputs, deletes[..n]);
      UnionSize(AllMarks(inputs, deletes[..n]), MarksOf(inputs, deletes[n]));
      TwiceIn(inputs, deletes);
    }
  }

  lemma {:induction false} MarksAreDead(inputs: seq<File>, deletes: seq<File>)
    requires DistinctUris(inputs) && AllData(inputs) && ExactEntries(inputs, deletes)
    ensures AllMarks(inputs, deletes) == DeadMarks(inputs, deletes)
  {
    forall mark: (string, nat)
      ensures mark in AllMarks(inputs, deletes) <==> mark in DeadMarks(inputs, deletes)
    {
      AllMarksIn(inputs, deletes, mark);
      DeadMarksIn(inputs, deletes, mark.0, mark.1);
      if mark in AllMarks(inputs, deletes) {
        var i :| 0 <= i < |deletes| && mark in MarksOf(inputs, deletes[i]);
        CountedMeansDead(inputs, deletes, deletes[i], mark.0, mark.1);
      }
      if mark in DeadMarks(inputs, deletes) {
        var i :| 0 <= i < |inputs| && Uri(inputs[i].loc) == mark.0 && mark.1 in DeadIn(inputs[i], deletes);
        DeadMeansCounted(inputs, deletes, inputs[i], mark.1);
      }
    }
  }

  lemma CountedMeansDead(inputs: seq<File>, deletes: seq<File>, d: File, path: string, p: nat)
    requires ExactEntries(inputs, deletes) && d in deletes && (path, p) in MarksOf(inputs, d)
    ensures exists i :: 0 <= i < |inputs| && Uri(inputs[i].loc) == path && p in DeadIn(inputs[i], deletes)
  {
    var f := FindInput(inputs, path).value;
    assert path == Uri(f.loc);
    assert p in Dead(path, deletes, {});
    var i :| 0 <= i < |inputs| && inputs[i] == f;
    assert p in DeadIn(inputs[i], deletes);
  }

  lemma DeadMeansCounted(inputs: seq<File>, deletes: seq<File>, f: File, p: nat)
    requires DistinctUris(inputs) && ExactEntries(inputs, deletes) && f in inputs && p in DeadIn(f, deletes)
    ensures exists i :: 0 <= i < |deletes| && (Uri(f.loc), p) in MarksOf(inputs, deletes[i])
  {
    var d :| d in deletes && d.Deletes? && Uri(d.loc) !in {} && Uri(f.loc) in d.marks && p in d.marks[Uri(f.loc)];
    assert RefersTo(Uri(f.loc), f.loc);
    var g := FindInput(inputs, Uri(f.loc)).value;
    SameUriSameFile(inputs, f, g);
    var i :| 0 <= i < |deletes| && deletes[i] == d;
    assert (Uri(f.loc), p) in MarksOf(inputs, deletes[i]);
  }

  /** After a correct scan the check passes if and only if no row is marked by two
      delete files, or no row is left at all. A double mark makes it abort a correct
      rewrite. */
  lemma {:induction false} CheckIsExact(inputs: seq<File>, deletes: seq<File>, outputs: seq<File>)
    requires DistinctUris(inputs) && AllData(inputs) && ExactEntries(inputs, deletes)
    requires AllRows(outputs) == RowsOf(inputs, deletes, {})
    ensures ConservesRows(inputs, outputs, CountedRows(inputs, deletes)) <==>
            !MarkedTwice(inputs, deletes) || TotalRows(outputs) == 0
  {
    AllRowsSize(outputs);
    ScanSize(inputs, deletes);
    MarksAreDead(inputs, deletes);
    CountedIsUnion(inputs, deletes);
  }

  /** Whatever the scan did, a passing check means that the outputs hold as many rows
      as the inputs logically hold, provided no row is marked twice. */
  lemma {:induction false} PassingCheckConserves(inputs: seq<File>, deletes: seq<File>, outputs: seq<File>)
    requires DistinctUris(inputs) && AllData(inputs) && ExactEntries(inputs, deletes)
    requires !MarkedTwice(inputs, deletes)
    ensures ConservesRows(inputs, outputs, CountedRows(inputs, deletes)) <==>
            |AllRows(outputs)| == |RowsOf(inputs, deletes, {})|
  {
    AllRowsSize(outputs);
    ScanSize(inputs, deletes);
    MarksAreDead(inputs, deletes);
    CountedIsUnion(inputs, deletes);
  }

  // ----- A correct rewrite that the check aborts -----

  function TwoRows(): File {
    Data(Location("/", "f"), 0, [7, 8])
  }

  function MarksFirst(key: string): File {
    Deletes(Location("/", key), 0, map["/f" := {0}])
  }

  lemma EntriesNameTheFile()
    ensures ExactEntries([TwoRows()], [MarksFirst("d"), MarksFirst("e")])
    ensures FindInput([TwoRows()], "/f") == Some(TwoRows())
  {
    assert Uri(TwoRows().loc) == "/f";
    assert RefersTo("/f", TwoRows().loc);
  }

  lemma BothMarkTheRow()
    ensures MarkedTwice([TwoRows()], [MarksFirst("d"), MarksFirst("e")])
  {
    var deletes := [MarksFirst("d"), MarksFirst("e")];
    EntriesNameTheFile();
    var zero: nat := 0;
    assert "/f" in deletes[0].marks && "/f" in deletes[1].marks;
    assert zero in InRange({0}, TwoRows());
    assert ("/f", zero) in MarksOf([TwoRows()], deletes[0]) * MarksOf([TwoRows()], deletes[1]);
  }

  lemma OneRowIsLeft()
    ensures RowsOf([TwoRows()], [MarksFirst("d"), MarksFirst("e")], {}) == multiset{8}
  {
    var f, deletes := TwoRows(), [MarksFirst("d"), MarksFirst("e")];
    assert Uri(f.loc) == "/f";
    assert deletes[0] in deletes && 0 in deletes[0].marks["/f"];
    assert Dead("/f", deletes, {}) == {0};
    assert Survivors([7, 8], {0}, 0) == multiset{};
    assert Survivors([7, 8], {0}, 1) == multiset{};
    assert Survivors([7, 8], {0}, 2) == multiset{8};
    assert [f][..0] == [];
  }

  /** Two rows, the first of them marked by two delete files: the rewrite holds exactly
      the row that is left, and the check aborts it. */
  lemma DoubleMarkAborts() returns (inputs: seq<File>, deletes: seq<File>, outputs: seq<File>)
    ensures AllRows(outputs) == RowsOf(inputs, deletes, {}) == multiset{8}
    ensures !ConservesRows(inputs, outputs, CountedRows(inputs, deletes))
  {
    inputs, deletes := [TwoRows()], [MarksFirst("d"), MarksFirst("e")];
    outputs := [Data(Location("/", "g"), 0, [8])];
    OneRowIsLeft();
    assert outputs[..0] == [] && multiset([8]) == multiset{8};
    assert AllRows(outputs) == multiset{8};
    assert TotalRows(outputs) == 1;
    EntriesNameTheFile();
    BothMarkTheRow();
    CheckIsExact(inputs, deletes, outputs);
  }
}
