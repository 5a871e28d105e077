/**
Data files, position deletes and the rows a table logically holds, and how a
compaction decides which deletes it has resolved
(`resolve_input_deletes`, `find_input_for_path` and `verify_row_conservation` in
crates/teodb-distributed/src/compactor/execution.rs).
*/
module CompactionFiles {
  import opened Wrappers

  // What a row holds does not matter here, only that rows can be told apart.
  type Row = int

  // The URI prefix of a location (scheme and bucket) and its key.
  datatype Location = Location(prefix: string, key: string)

  function Uri(loc: Location): string {
    loc.prefix + loc.key
  }

  // A position-delete file maps recorded file paths to row positions.
  datatype File =
    | Data(loc: Location, partition: nat, rows: seq<Row>)
    | Deletes(loc: Location, partition: nat, marks: map<string, set<int>>)

  // ----- Logical rows -----

  /** Positions of the file at `uri` that some live delete file marks. */
  ghost function Dead(uri: string, files: seq<File>, removed: set<string>): set<int> {
    set d, p | d in files && d.Deletes? && Uri(d.loc) !in removed && uri in d.marks && p in d.marks[uri] :: p
  }

  /** The rows at the first `n` positions that are not dead. */
  ghost function Survivors(rows: seq<Row>, dead: set<int>, n: nat): multiset<Row>
    requires n <= |rows|
  {
    if n == 0 then multiset{}
    else Survivors(rows, dead, n - 1) + if n - 1 in dead then multiset{} else multiset{rows[n - 1]}
  }

  /** What one file contributes to the table: nothing once its path is marked removed. */
  ghost function Contribution(f: File, files: seq<File>, removed: set<string>): multiset<Row> {
    if !f.Data? || Uri(f.loc) in removed then multiset{}
    else Survivors(f.rows, Dead(Uri(f.loc), files, removed), |f.rows|)
  }

  ghost function RowsOf(part: seq<File>, files: seq<File>, removed: set<string>): multiset<Row> {
    if part == [] then multiset{}
    else RowsOf(part[..|part| - 1], files, removed) + Contribution(part[|part| - 1], files, removed)
  }

  /** The rows of the table: all manifest entries, minus the removed paths, minus the
      deleted positions. */
  ghost function LogicalRows(files: seq<File>, removed: set<string>): multiset<Row> {
    RowsOf(files, files, removed)
  }

  /** What the files of a compaction's input contribute. */
  ghost function InputRows(part: seq<File>, files: seq<File>, removed: set<string>, ins: set<string>): multiset<Row> {
    if part == [] then multiset{}
    else
      var f := part[|part| - 1];
      InputRows(part[..|part| - 1], files, removed, ins)
      + if Uri(f.loc) in ins then Contribution(f, files, removed) else multiset{}
  }

  ghost function AllRows(part: seq<File>): multiset<Row> {
    if part == [] then multiset{}
    else
      var f := part[|part| - 1];
      AllRows(part[..|part| - 1]) + if f.Data? then multiset(f.rows) else multiset{}
  }

  lemma {:induction false} RowsOfConcat(a: seq<File>, b: seq<File>, files: seq<File>, removed: set<string>)
    ensures RowsOf(a + b, files, removed) == RowsOf(a, files, removed) + RowsOf(b, files, removed)
  {
    if b == [] {
      assert a + b == a;
    } else {
      assert (a + b)[..|a + b| - 1] == a + b[..|b| - 1];
      RowsOfConcat(a, b[..|b| - 1], files, removed);
    }
  }

  lemma {:induction false} SurvivorsOfLiving(rows: seq<Row>, n: nat)
    requires n <= |rows|
    ensures Survivors(rows, {}, n) == multiset(rows[..n])
  {
    if n > 0 {
      SurvivorsOfLiving(rows, n - 1);
      assert rows[..n] == rows[..n - 1] + [rows[n - 1]];
    }
  }

  /** Files nothing marks contribute all their rows. */
  lemma {:induction false} UnmarkedRows(part: seq<File>, files: seq<File>, removed: set<string>)
    requires forall f | f in part :: Uri(f.loc) !in removed && Dead(Uri(f.loc), files, removed) == {}
    ensures RowsOf(part, files, removed) == AllRows(part)
  {
    if part != [] {
      var f := part[|part| - 1];
      UnmarkedRows(part[..|part| - 1], files, removed);
      if f.Data? {
        SurvivorsOfLiving(f.rows, |f.rows|);
        assert f.rows[..|f.rows|] == f.rows;
      }
    }
  }

  /** Contributions depend only on the removed flag and the dead positions. */
  lemma {:induction false} SameContributions(
      part: seq<File>, files: seq<File>, removed: set<string>, files': seq<File>, removed': set<string>)
    requires forall f | f in part && f.Data? ::
               && (Uri(f.loc) in removed <==> Uri(f.loc) in removed')
               && Dead(Uri(f.loc), files, removed) == Dead(Uri(f.loc), files', removed')
    ensures RowsOf(part, files, removed) == RowsOf(part, files', removed')
    ensures forall ins :: InputRows(part, files, removed, ins) == InputRows(part, files', removed', ins)
  {
    if part != [] {
      SameContributions(part[..|part| - 1], files, removed, files', removed');
    }
  }

  // ----- Resolving deletes -----

  predicate EndsWith(s: string, suffix: string) {
    |suffix| <= |s| && s[|s| - |suffix|..] == suffix
  }

  /** A delete entry names a file by its key, by its URI, or by a path ending in `/key`. */
  predicate RefersTo(recorded: string, loc: Location) {
    || recorded == loc.key
    || recorded == Uri(loc)
    || (EndsWith(recorded, loc.key) && EndsWith(recorded[..|recorded| - |loc.key|], "/"))
  }

  function FindInput(inputs: seq<File>, recorded: string): (r: Option<File>)
    ensures r.Some? ==> r.value in inputs && RefersTo(recorded, r.value.loc)
    ensures r.None? ==> forall f | f in inputs :: !RefersTo(recorded, f.loc)
  {
    if inputs == [] then None
    else if RefersTo(recorded, inputs[0].loc) then Some(inputs[0])
    else FindInput(inputs[1..], recorded)
  }

  /** The lookup takes the first input the entry refers to. */
  lemma {:induction false} FindInputIsFirst(inputs: seq<File>, recorded: string, i: nat)
    requires i < |inputs| && RefersTo(recorded, inputs[i].loc)
    requires forall j | 0 <= j < i :: !RefersTo(recorded, inputs[j].loc)
    ensures FindInput(inputs, recorded) == Some(inputs[i])
  {
    if i > 0 {
      assert !RefersTo(recorded, inputs[0].loc);
      FindInputIsFirst(inputs[1..], recorded, i - 1);
    }
  }

  /** Positions inside the file's row range. */
  function InRange(positions: set<int>, f: File): set<nat> {
    set p: nat | p in positions && p < if f.Data? then |f.rows| else 0
  }

  /** The marks of a delete file that are counted as deleted input rows. */
  function Counted(inputs: seq<File>, marks: map<string, set<int>>, paths: set<string>): set<(string, nat)> {
    set path, p: nat | path in paths && path in marks && FindInput(inputs, path).Some?
                  && p in InRange(marks[path], FindInput(inputs, path).value)
      :: (path, p)
  }

  function CountedRows(inputs: seq<File>, deletes: seq<File>): nat {
    if deletes == [] then 0
    else
      var d := deletes[|deletes| - 1];
      CountedRows(inputs, deletes[..|deletes| - 1]) + if d.Deletes? then |Counted(inputs, d.marks, d.marks.Keys)| else 0
  }

  predicate OnlyInputs(inputs: seq<File>, marks: map<string, set<int>>) {
    marks != map[] && forall path | path in marks :: FindInput(inputs, path).Some?
  }

  function Resolved(inputs: seq<File>, deletes: seq<File>): seq<Location> {
    if deletes == [] then []
    else
      var d := deletes[|deletes| - 1];
      Resolved(inputs, deletes[..|deletes| - 1]) + if d.Deletes? && OnlyInputs(inputs, d.marks) then [d.loc] else []
  }

  ghost predicate ResolvedAs(inputs: seq<File>, d: File, loc: Location) {
    d.Deletes? && d.loc == loc && OnlyInputs(inputs, d.marks)
  }

  lemma {:induction false} ResolvedIn(inputs: seq<File>, deletes: seq<File>, loc: Location)
    ensures loc in Resolved(inputs, deletes) <==> exists d :: d in deletes && ResolvedAs(inputs, d, loc)
  {
    if deletes != [] {
      var n := |deletes| - 1;
      ResolvedIn(inputs, deletes[..n], loc);
      assert deletes == deletes[..n] + [deletes[n]];
      assert forall d :: d in deletes <==> d in deletes[..n] || d == deletes[n];
      assert loc in Resolved(inputs, deletes) <==>
             loc in Resolved(inputs, deletes[..n]) || ResolvedAs(inputs, deletes[n], loc);
    }
  }

  ghost function At(path: string, positions: set<nat>): set<(string, nat)> {
    set p | p in positions :: (path, p)
  }

  lemma {:induction false} SizeAt(path: string, positions: set<nat>)
    ensures |At(path, positions)| == |positions|
    decreases positions
  {
    if positions != {} {
      var p :| p in positions;
      SizeAt(path, positions - {p});
      assert At(path, positions) == At(path, positions - {p}) + {(path, p)};
    }
  }

  lemma {:induction false} CountPath(inputs: seq<File>, marks: map<string, set<int>>, paths: set<string>, path: string)
    requires path in marks && path !in paths
    ensures |Counted(inputs, marks, paths + {path})|
            == |Counted(inputs, marks, paths)|
               + if FindInput(inputs, path).Some? then |InRange(marks[path], FindInput(inputs, path).value)| else 0
  {
    var found := FindInput(inputs, path);
    var before := Counted(inputs, marks, paths);
    if found.Some? {
      var positions := InRange(marks[path], found.value);
      var added := At(path, positions);
      SizeAt(path, positions);
      assert Counted(inputs, marks, paths + {path}) == before + added;
      assert before !! added;
    } else {
      assert Counted(inputs, marks, paths + {path}) == before;
    }
  }

  /** One delete file: how many input rows it marks, and whether only inputs. */
  method CountMarks(inputs: seq<File>, marks: map<string, set<int>>) returns (count: nat, onlyInputs: bool)
    ensures count == |Counted(inputs, marks, marks.Keys)|
    ensures onlyInputs == OnlyInputs(inputs, marks)
  {
    onlyInputs := marks != map[];
    count := 0;
    var todo := marks.Keys;
    ghost var done: set<string> := {};
    while todo != {}
      invariant done + todo == marks.Keys && done !! todo
      invariant count == |Counted(inputs, marks, done)|
      invariant onlyInputs <==> marks != map[] && forall path | path in done :: FindInput(inputs, path).Some?
    {
      var path :| path in todo;
      todo := todo - {path};
      var found := FindInput(inputs, path);
      CountPath(inputs, marks, done, path);
      if found.Some? {
        count := count + |InRange(marks[path], found.value)|;
      } else {
        onlyInputs := false;
      }
      done := done + {path};
    }
    assert done == marks.Keys;
  }

  method ResolveInputDeletes(inputs: seq<File>, deletes: seq<File>) returns (deletedRows: nat, resolved: seq<Location>)
    ensures deletedRows == CountedRows(inputs, deletes)
    ensures resolved == Resolved(inputs, deletes)
  {
    deletedRows, resolved := 0, [];
    for i := 0 to |deletes|
      invariant deletedRows == CountedRows(inputs, deletes[..i])
      invariant resolved == Resolved(inputs, deletes[..i])
    {
      var d := deletes[i];
      assert deletes[..i + 1][..i] == deletes[..i];
      if d.Deletes? {
        var count, onlyInputs := CountMarks(inputs, d.marks);
        deletedRows := deletedRows + count;
        if onlyInputs {
          resolved := resolved + [d.loc];
        }
      }
    }
    assert deletes[..|deletes|] == deletes;
  }

  // ----- When the lookup of delete entries is exact -----

  function Uris(files: seq<File>): set<string> {
    set f | f in files :: Uri(f.loc)
  }

  /** One path ends in the other, at a separator. */
  predicate PathSuffix(key: string, path: string) {
    EndsWith(path, "/" + key)
  }

  lemma SuffixSpelling(recorded: string, key: string)
    ensures PathSuffix(key, recorded) <==>
            EndsWith(recorded, key) && EndsWith(recorded[..|recorded| - |key|], "/")
  {
    if EndsWith(recorded, key) {
      var prefix := recorded[..|recorded| - |key|];
      assert recorded == prefix + key;
      if EndsWith(prefix, "/") {
        assert prefix == prefix[..|prefix| - 1] + "/";
        assert recorded == prefix[..|prefix| - 1] + ("/" + key);
      }
    }
    if PathSuffix(key, recorded) {
      var rest := recorded[..|recorded| - |key| - 1];
      assert recorded == rest + ("/" + key) == (rest + "/") + key;
      assert recorded[..|recorded| - |key|] == rest + "/";
    }
  }

  /** Some input's key is the end of another file's URI. */
  ghost predicate Clash(inputs: seq<File>, files: seq<File>) {
    exists f, g | f in inputs && g in files ::
      Uri(g.loc) !in Uris(inputs) && (Uri(g.loc) == f.loc.key || PathSuffix(f.loc.key, Uri(g.loc)))
  }

  /** Looking up the URI of any file finds an input for exactly the inputs, if and only
      if no input's key is a path suffix of another file's URI. */
  lemma {:induction false} LookupIsExact(inputs: seq<File>, files: seq<File>)
    ensures (forall g | g in files :: FindInput(inputs, Uri(g.loc)).Some? <==> Uri(g.loc) in Uris(inputs))
            <==> !Clash(inputs, files)
  {
    forall f, g | f in inputs && g in files
      ensures RefersTo(Uri(g.loc), f.loc) <==>
              Uri(g.loc) == f.loc.key || Uri(g.loc) == Uri(f.loc) || PathSuffix(f.loc.key, Uri(g.loc))
    {
      SuffixSpelling(Uri(g.loc), f.loc.key);
    }
    if Clash(inputs, files) {
      var f, g :| f in inputs && g in files && Uri(g.loc) !in Uris(inputs)
                  && (Uri(g.loc) == f.loc.key || PathSuffix(f.loc.key, Uri(g.loc)));
      assert RefersTo(Uri(g.loc), f.loc);
      assert FindInput(inputs, Uri(g.loc)).Some?;
    }
    forall g | g in files && Uri(g.loc) in Uris(inputs)
      ensures FindInput(inputs, Uri(g.loc)).Some?
    {
      var f :| f in inputs && Uri(f.loc) == Uri(g.loc);
      assert RefersTo(Uri(g.loc), f.loc);
    }
  }

  /** A clash costs data: the delete file of an untouched file counts as resolved, and
      removing it brings the deleted row back. */
  lemma ClashResurrects()
    returns (input: File, other: File, d: File)
    ensures Uri(other.loc) != Uri(input.loc)
    ensures Resolved([input], [d]) == [d.loc]
    ensures LogicalRows([input, other, d], {}) != LogicalRows([input, other, d], {Uri(d.loc)})
  {
    input := Data(Location("/", "a"), 0, []);
    other := Data(Location("/", "x/a"), 0, [7]);
    d := Deletes(Location("/", "d"), 0, map["/x/a" := {0}]);
    assert Uri(other.loc) == "/x/a" && Uri(input.loc) == "/a" && Uri(d.loc) == "/d";
    assert |"/x/a"| == 4 && |"/a"| == 2;
    ClashIsResolved(input, d);
    RowsOfThree(input, other, d, {});
    RowsOfThree(input, other, d, {Uri(d.loc)});
    var files := [input, other, d];
    DeadWithAndWithout(input, other, d);
    assert Survivors([7], {0}, 1) == Survivors([7], {0}, 0);
    assert Survivors([7], {}, 1) == Survivors([7], {}, 0) + multiset{7};
    assert Contribution(other, files, {}) == multiset{};
    assert Contribution(other, files, {Uri(d.loc)}) == multiset{7};
  }

  lemma ClashIsResolved(input: File, d: File)
    requires input.loc == Location("/", "a") && d.Deletes? && d.marks == map["/x/a" := {0}]
    ensures Resolved([input], [d]) == [d.loc]
  {
    assert |"/x/a"| == 4 && |"a"| == 1;
    assert EndsWith("/x/a", "a") && "/x/a"[..3] == "/x/" && EndsWith("/x/", "/");
    assert RefersTo("/x/a", input.loc);
    assert FindInput([input], "/x/a") == Some(input);
    assert "/x/a" in d.marks;
    assert [d][..0] == [] && Resolved([input], []) == [];
  }

  lemma DeadWithAndWithout(input: File, other: File, d: File)
    requires input.Data? && other.Data? && d.Deletes? && d.marks == map[Uri(other.loc) := {0}]
    ensures Dead(Uri(other.loc), [input, other, d], {}) == {0}
    ensures Dead(Uri(other.loc), [input, other, d], {Uri(d.loc)}) == {}
  {
    assert d in [input, other, d] && 0 in d.marks[Uri(other.loc)];
  }

  lemma RowsOfThree(input: File, other: File, d: File, removed: set<string>)
    requires input.Data? && input.rows == [] && d.Deletes?
    ensures LogicalRows([input, other, d], removed) == Contribution(other, [input, other, d], removed)
  {
    var files := [input, other, d];
    assert files[..2] == [input, other] && [input, other][..1] == [input] && [input][..0] == [];
    assert RowsOf([input], files, removed) == multiset{};
    assert RowsOf([input, other], files, removed) == Contribution(other, files, removed);
  }
}
