/**
Which files a compaction takes (`select_compaction_candidates_with_delete_counts`,
`select_within_partition` and `has_delete_pressure` in
crates/teodb-distributed/src/selection.rs).
*/
module Selection {
  import opened Wrappers
  import CF = CompactionFiles

  const U64_MAX: nat := 0xFFFF_FFFF_FFFF_FFFF

  datatype Content = Data | PositionDelete | EqualityDelete

  datatype DataFile = DataFile(
    loc: CF.Location, content: Content, partition: nat, size: nat, records: nat)

  // `quotient` is the division of two counts as 64-bit floating-point numbers,
  // whatever it rounds to.
  datatype Config = Config(
    targetBytes: nat, minFiles: nat, maxFiles: nat, maxBytes: nat, pressureThreshold: real,
    quotient: (nat, nat) -> real)

  // Delete counts by recorded path, in the order the map is iterated.
  type Counts = seq<(string, nat)>

  // ----- Eligibility -----

  function Lookup(counts: Counts, path: string): Option<nat> {
    if counts == [] then None
    else if counts[0].0 == path then Some(counts[0].1)
    else Lookup(counts[1..], path)
  }

  function LookupReference(counts: Counts, loc: CF.Location): Option<nat> {
    if counts == [] then None
    else if CF.RefersTo(counts[0].0, loc) then Some(counts[0].1)
    else LookupReference(counts[1..], loc)
  }

  /** The URI first, then the key, then any path that refers to the file. */
  function DeleteCount(f: DataFile, counts: Counts): nat {
    match Lookup(counts, CF.Uri(f.loc))
    case Some(n) => n
    case None =>
      match Lookup(counts, f.loc.key)
      case Some(n) => n
      case None => match LookupReference(counts, f.loc) case Some(n) => n case None => 0
  }

  ghost predicate PathsDiffer(counts: Counts) {
    forall i, j | 0 <= i < j < |counts| :: counts[i].0 != counts[j].0
  }

  lemma {:induction false} LookupFinds(counts: Counts, path: string, i: nat)
    requires PathsDiffer(counts) && i < |counts| && counts[i].0 == path
    ensures Lookup(counts, path) == Some(counts[i].1)
  {
    if i > 0 {
      LookupFinds(counts[1..], path, i - 1);
    }
  }

  lemma {:induction false} LookupMisses(counts: Counts, path: string)
    ensures Lookup(counts, path).None? <==> forall i | 0 <= i < |counts| :: counts[i].0 != path
  {
    if counts != [] {
      LookupMisses(counts[1..], path);
      assert forall i | 0 < i < |counts| :: counts[i] == counts[1..][i - 1];
    }
  }

  lemma {:induction false} ReferenceFinds(counts: Counts, loc: CF.Location, i: nat)
    requires i < |counts| && CF.RefersTo(counts[i].0, loc)
    requires forall j | 0 <= j < i :: !CF.RefersTo(counts[j].0, loc)
    ensures LookupReference(counts, loc) == Some(counts[i].1)
  {
    if i > 0 {
      ReferenceFinds(counts[1..], loc, i - 1);
    }
  }

  lemma {:induction false} ReferenceMisses(counts: Counts, loc: CF.Location)
    requires forall i | 0 <= i < |counts| :: !CF.RefersTo(counts[i].0, loc)
    ensures LookupReference(counts, loc).None?
  {
    if counts != [] {
      ReferenceMisses(counts[1..], loc);
    }
  }

  /** The entry that counts for a file: under its URI, else under its key, else the first
      that refers to it. */
  ghost predicate CountsFor(counts: Counts, f: DataFile, i: nat)
    requires i < |counts|
  {
    var uri, key := CF.Uri(f.loc), f.loc.key;
    || counts[i].0 == uri
    || (counts[i].0 == key && forall j | 0 <= j < |counts| :: counts[j].0 != uri)
    || (CF.RefersTo(counts[i].0, f.loc)
        && (forall j | 0 <= j < |counts| :: counts[j].0 != uri && counts[j].0 != key)
        && (forall j | 0 <= j < i :: !CF.RefersTo(counts[j].0, f.loc)))
  }

  lemma DeleteCountIs(f: DataFile, counts: Counts, i: nat)
    requires PathsDiffer(counts) && i < |counts| && CountsFor(counts, f, i)
    ensures DeleteCount(f, counts) == counts[i].1
  {
    LookupMisses(counts, CF.Uri(f.loc));
    LookupMisses(counts, f.loc.key);
    if counts[i].0 == CF.Uri(f.loc) {
      LookupFinds(counts, CF.Uri(f.loc), i);
    } else if counts[i].0 == f.loc.key {
      LookupFinds(counts, f.loc.key, i);
    } else {
      ReferenceFinds(counts, f.loc, i);
    }
  }

  lemma UncountedIsZero(f: DataFile, counts: Counts)
    requires forall i | 0 <= i < |counts| ::
               counts[i].0 != CF.Uri(f.loc) && counts[i].0 != f.loc.key && !CF.RefersTo(counts[i].0, f.loc)
    ensures DeleteCount(f, counts) == 0
  {
    LookupMisses(counts, CF.Uri(f.loc));
    LookupMisses(counts, f.loc.key);
    ReferenceMisses(counts, f.loc);
  }

  predicate Pressured(f: DataFile, counts: Counts, cfg: Config) {
    f.records != 0 && cfg.quotient(DeleteCount(f, counts), f.records) > cfg.pressureThreshold
  }

  datatype Kind = Small | Mid | Large

  function KindOf(f: DataFile, cfg: Config): Kind {
    if f.size < cfg.targetBytes / 4 then Small else if f.size < cfg.targetBytes / 2 then Mid else Large
  }

  function OfKind(files: seq<DataFile>, cfg: Config, kind: Kind): seq<DataFile> {
    if files == [] then []
    else
      var f := files[|files| - 1];
      OfKind(files[..|files| - 1], cfg, kind) + if KindOf(f, cfg) == kind then [f] else []
  }

  function PressuredOnly(files: seq<DataFile>, counts: Counts, cfg: Config): seq<DataFile> {
    if files == [] then []
    else
      var f := files[|files| - 1];
      PressuredOnly(files[..|files| - 1], counts, cfg) + if Pressured(f, counts, cfg) then [f] else []
  }

  /** Small files, mid-size files if there are enough, large files under pressure. */
  function Candidates(files: seq<DataFile>, cfg: Config, counts: Counts): seq<DataFile> {
    OfKind(files, cfg, Small)
    + (if |OfKind(files, cfg, Mid)| >= cfg.minFiles then OfKind(files, cfg, Mid) else [])
    + PressuredOnly(OfKind(files, cfg, Large), counts, cfg)
  }

  lemma {:induction false} OfKindCounts(files: seq<DataFile>, cfg: Config, kind: Kind, f: DataFile)
    ensures multiset(OfKind(files, cfg, kind))[f] == if KindOf(f, cfg) == kind then multiset(files)[f] else 0
  {
    if files != [] {
      OfKindCounts(files[..|files| - 1], cfg, kind, f);
      assert files == files[..|files| - 1] + [files[|files| - 1]];
    }
  }

  lemma {:induction false} PressuredCounts(files: seq<DataFile>, counts: Counts, cfg: Config, f: DataFile)
    ensures multiset(PressuredOnly(files, counts, cfg))[f]
            == if Pressured(f, counts, cfg) then multiset(files)[f] else 0
  {
    if files != [] {
      PressuredCounts(files[..|files| - 1], counts, cfg, f);
      assert files == files[..|files| - 1] + [files[|files| - 1]];
    }
  }

  /** Below a quarter of the target, the quarter rounded down. */
  predicate BelowQuarter(f: DataFile, cfg: Config) {
    4 * (f.size + 1) <= cfg.targetBytes
  }

  predicate BelowHalf(f: DataFile, cfg: Config) {
    2 * (f.size + 1) <= cfg.targetBytes
  }

  function CountMid(files: seq<DataFile>, cfg: Config): nat {
    if files == [] then 0
    else
      CountMid(files[..|files| - 1], cfg)
      + if BelowHalf(files[|files| - 1], cfg) && !BelowQuarter(files[|files| - 1], cfg) then 1 else 0
  }

  lemma KindBySize(f: DataFile, cfg: Config)
    ensures KindOf(f, cfg) == Small <==> BelowQuarter(f, cfg)
    ensures KindOf(f, cfg) == Large <==> !BelowHalf(f, cfg)
  {
  }

  lemma {:induction false} MidCounted(files: seq<DataFile>, cfg: Config)
    ensures |OfKind(files, cfg, Mid)| == CountMid(files, cfg)
  {
    if files != [] {
      MidCounted(files[..|files| - 1], cfg);
      KindBySize(files[|files| - 1], cfg);
    }
  }

  predicate IsCandidate(files: seq<DataFile>, cfg: Config, counts: Counts, f: DataFile) {
    if BelowQuarter(f, cfg) then true
    else if BelowHalf(f, cfg) then CountMid(files, cfg) >= cfg.minFiles
    else f.records > 0 && cfg.quotient(DeleteCount(f, counts), f.records) > cfg.pressureThreshold
  }

  /** A file is a candidate exactly by its size class, and as often as it is listed. */
  lemma CandidateCounts(files: seq<DataFile>, cfg: Config, counts: Counts, f: DataFile)
    ensures multiset(Candidates(files, cfg, counts))[f]
            == if IsCandidate(files, cfg, counts, f) then multiset(files)[f] else 0
  {
    OfKindCounts(files, cfg, Small, f);
    OfKindCounts(files, cfg, Mid, f);
    OfKindCounts(files, cfg, Large, f);
    PressuredCounts(OfKind(files, cfg, Large), counts, cfg, f);
    KindBySize(f, cfg);
    MidCounted(files, cfg);
  }

  // ----- Sorting by size -----

  function Insert(x: DataFile, s: seq<DataFile>): seq<DataFile> {
    if s == [] || x.size <= s[0].size then [x] + s else [s[0]] + Insert(x, s[1..])
  }

  /** A stable sort, smallest first. */
  function BySize(s: seq<DataFile>): seq<DataFile> {
    if s == [] then [] else Insert(s[0], BySize(s[1..]))
  }

  ghost predicate Ascending(s: seq<DataFile>) {
    forall i, j | 0 <= i < j < |s| :: s[i].size <= s[j].size
  }

  lemma {:induction false} InsertContents(x: DataFile, s: seq<DataFile>)
    ensures multiset(Insert(x, s)) == multiset(s) + multiset{x}
  {
    if s != [] && x.size > s[0].size {
      InsertContents(x, s[1..]);
      assert s == [s[0]] + s[1..];
    }
  }

  lemma {:induction false} InsertMembers(x: DataFile, s: seq<DataFile>)
    ensures forall y :: y in Insert(x, s) <==> y == x || y in s
  {
    if s != [] && x.size > s[0].size {
      InsertMembers(x, s[1..]);
      assert s == [s[0]] + s[1..];
    }
  }

  lemma {:induction false} InsertSorts(x: DataFile, s: seq<DataFile>)
    requires Ascending(s)
    ensures Ascending(Insert(x, s))
  {
    if s != [] && x.size > s[0].size {
      InsertSorts(x, s[1..]);
      InsertMembers(x, s[1..]);
      assert forall y | y in s[1..] :: y.size >= s[0].size;
      assert forall y | y in Insert(x, s[1..]) :: y.size >= s[0].size;
    }
  }

  lemma {:induction false} BySizeSorts(s: seq<DataFile>)
    ensures Ascending(BySize(s)) && multiset(BySize(s)) == multiset(s)
  {
    if s != [] {
      BySizeSorts(s[1..]);
      InsertSorts(s[0], BySize(s[1..]));
      InsertContents(s[0], BySize(s[1..]));
      assert s == [s[0]] + s[1..];
    }
  }

  // ----- The running total -----

  function Sum(s: seq<DataFile>): nat {
    if s == [] then 0 else Sum(s[..|s| - 1]) + s[|s| - 1].size
  }

  function SaturatingAdd(a: nat, b: nat): nat {
    if a + b > U64_MAX then U64_MAX else a + b
  }

  lemma {:induction false} SumGrows(s: seq<DataFile>, i: nat, j: nat)
    requires i <= j <= |s|
    ensures Sum(s[..i]) <= Sum(s[..j])
  {
    if i < j {
      SumGrows(s, i, j - 1);
      assert s[..j][..j - 1] == s[..j - 1];
    }
  }

  /** Zero disables the budget, and a saturating total never exceeds the largest u64. */
  predicate Budgeted(cfg: Config) {
    0 < cfg.maxBytes < U64_MAX
  }

  /** How many of the sorted candidates fit: all that the cap and the budget allow. */
  ghost predicate FitsExactly(sorted: seq<DataFile>, cfg: Config, k: nat) {
    && k <= |sorted| && k <= cfg.maxFiles
    && (Budgeted(cfg) ==> Sum(sorted[..k]) <= cfg.maxBytes)
    && (k < |sorted| && k < cfg.maxFiles ==> Budgeted(cfg) && Sum(sorted[..k + 1]) > cfg.maxBytes)
  }

  /** `retain` with a saturating running total. As long as the budget is below the
      largest u64, the total never comes back within it, so what is kept is a prefix. */
  method RetainWithinBudget(files: seq<DataFile>, maxBytes: nat) returns (kept: seq<DataFile>)
    requires maxBytes <= U64_MAX
    ensures kept <= files
    ensures maxBytes < U64_MAX ==> Sum(kept) <= maxBytes
    ensures |kept| < |files| ==> maxBytes < U64_MAX && Sum(files[..|kept| + 1]) > maxBytes
  {
    var total := 0;
    kept := [];
    ghost var open := true;
    for i := 0 to |files|
      invariant |kept| <= i && kept == files[..|kept|] && total <= U64_MAX
      invariant maxBytes < U64_MAX ==> Sum(kept) <= maxBytes
      invariant open ==> |kept| == i && (total == Sum(files[..i]) || (maxBytes == U64_MAX && total == U64_MAX))
      invariant !open ==> |kept| < i && Sum(files[..|kept| + 1]) > maxBytes && total > maxBytes && maxBytes < U64_MAX
    {
      assert files[..i + 1][..i] == files[..i];
      total := SaturatingAdd(total, files[i].size);
      if total <= maxBytes {
        kept := kept + [files[i]];
      } else {
        open := false;
      }
    }
  }

  method CollectCandidates(files: seq<DataFile>, cfg: Config, counts: Counts) returns (candidates: seq<DataFile>)
    ensures candidates == Candidates(files, cfg, counts)
  {
    var small, mid, pressured := [], [], [];
    for i := 0 to |files|
      invariant small == OfKind(files[..i], cfg, Small) && mid == OfKind(files[..i], cfg, Mid)
      invariant pressured == PressuredOnly(OfKind(files[..i], cfg, Large), counts, cfg)
    {
      var f := files[i];
      assert files[..i + 1][..i] == files[..i];
      ghost var large := OfKind(files[..i], cfg, Large);
      assert OfKind(files[..i + 1], cfg, Large) == if KindOf(f, cfg).Large? then large + [f] else large;
      match KindOf(f, cfg)
      case Small => small := small + [f];
      case Mid => mid := mid + [f];
      case Large =>
        assert (large + [f])[..|large|] == large;
        if Pressured(f, counts, cfg) {
          pressured := pressured + [f];
        }
    }
    assert files[..|files|] == files;
    candidates := small;
    if |mid| >= cfg.minFiles {
      candidates := candidates + mid;
    }
    candidates := candidates + pressured;
  }

  /** The candidates of one partition that a run takes. */
  method SelectWithinPartition(files: seq<DataFile>, cfg: Config, counts: Counts) returns (kept: seq<DataFile>)
    requires cfg.maxBytes <= U64_MAX
    ensures kept <= BySize(Candidates(files, cfg, counts))
    ensures FitsExactly(BySize(Candidates(files, cfg, counts)), cfg, |kept|)
  {
    var candidates := CollectCandidates(files, cfg, counts);
    var sorted := BySize(candidates);
    var capped := if |sorted| > cfg.maxFiles then sorted[..cfg.maxFiles] else sorted;
    if cfg.maxBytes == 0 {
      assert sorted[..|capped|] == capped;
      return capped;
    }
    kept := RetainWithinBudget(capped, cfg.maxBytes);
    assert sorted[..|kept|] == kept;
    assert |kept| < |capped| ==> capped[..|kept| + 1] == sorted[..|kept| + 1];
  }

  // ----- No other choice has more files -----

  lemma {:induction false} SumConcat(a: seq<DataFile>, b: seq<DataFile>)
    ensures Sum(a + b) == Sum(a) + Sum(b)
  {
    if b == [] {
      assert a + b == a;
    } else {
      assert (a + b)[..|a + b| - 1] == a + b[..|b| - 1];
      SumConcat(a, b[..|b| - 1]);
    }
  }

  lemma RemoveOne(t: seq<DataFile>, x: DataFile) returns (rest: seq<DataFile>)
    requires x in t
    ensures |rest| == |t| - 1 && multiset(rest) + multiset{x} == multiset(t) && Sum(t) == Sum(rest) + x.size
  {
    var i :| 0 <= i < |t| && t[i] == x;
    rest := t[..i] + t[i + 1..];
    assert t == t[..i] + ([x] + t[i + 1..]);
    SumConcat(t[..i], [x] + t[i + 1..]);
    SumConcat([x], t[i + 1..]);
    SumConcat(t[..i], t[i + 1..]);
    assert [x][..0] == [];
    assert Sum([x]) == x.size;
  }

  /** What is picked from a list comes from its front part, or uses its last element. */
  lemma WithoutLast(rest: seq<DataFile>, x: DataFile, t: seq<DataFile>) returns (t': seq<DataFile>)
    requires multiset(t) <= multiset(rest + [x])
    ensures multiset(t') <= multiset(rest)
    ensures t' == t || (|t'| == |t| - 1 && Sum(t) == Sum(t') + x.size)
  {
    if multiset(t) <= multiset(rest) {
      t' := t;
    } else {
      LastMustBeIn(rest, x, t);
      t' := RemoveOne(t, x);
      OneFewer(rest, x, t, t');
    }
  }

  ghost predicate PickedFrom(t: seq<DataFile>, s: seq<DataFile>) {
    multiset(t) <= multiset(s)
  }

  lemma LightestStep(s: seq<DataFile>, m: nat, m': nat, sum: nat, sum': nat)
    requires s != [] && Ascending(s) && m' <= m <= |s| && m' <= |s| - 1
    requires Sum(s[..|s| - 1][..m']) <= sum'
    requires (m' == m && sum' <= sum) || (m' == m - 1 && sum == sum' + s[|s| - 1].size)
    ensures Sum(s[..m]) <= sum
  {
    assert s[..|s| - 1][..m'] == s[..m'];
    if m' < m {
      assert s[..m][..m'] == s[..m'];
    }
  }

  lemma PickSmaller(s: seq<DataFile>, t: seq<DataFile>, m: nat) returns (t': seq<DataFile>, m': nat)
    requires s != [] && PickedFrom(t, s) && m <= |t|
    ensures PickedFrom(t', s[..|s| - 1]) && m' <= |t'| && m' <= m
    ensures (m' == m && Sum(t') <= Sum(t)) || (m' == m - 1 && Sum(t) == Sum(t') + s[|s| - 1].size)
  {
    assert s == s[..|s| - 1] + [s[|s| - 1]];
    t' := WithoutLast(s[..|s| - 1], s[|s| - 1], t);
    m' := if m <= |t'| then m else m - 1;
  }

  /** The first `m` of a sorted list are the lightest `m` one can pick from it. */
  lemma {:induction false} PrefixIsLightest(s: seq<DataFile>, t: seq<DataFile>, m: nat)
    requires Ascending(s) && PickedFrom(t, s) && m <= |t|
    ensures m <= |s| && Sum(s[..m]) <= Sum(t)
    decreases |s|
  {
    SizeOfSubset(s, t);
    if s != [] {
      var t', m' := PickSmaller(s, t, m);
      PrefixIsLightest(s[..|s| - 1], t', m');
      LightestStep(s, m, m', Sum(t), Sum(t'));
    }
  }

  lemma SizeOfSubset(s: seq<DataFile>, t: seq<DataFile>)
    requires multiset(t) <= multiset(s)
    ensures |t| <= |s|
  {
    assert |multiset(s)| == |multiset(t)| + |multiset(s) - multiset(t)|;
  }

  lemma LastMustBeIn(rest: seq<DataFile>, x: DataFile, t: seq<DataFile>)
    requires multiset(t) <= multiset(rest + [x]) && !(multiset(t) <= multiset(rest))
    ensures x in t
  {
    var y :| multiset(t)[y] > multiset(rest)[y];
    assert multiset(rest + [x])[y] == multiset(rest)[y] + if y == x then 1 else 0;
    assert y in multiset(t);
  }

  lemma OneFewer(rest: seq<DataFile>, x: DataFile, t: seq<DataFile>, t': seq<DataFile>)
    requires multiset(t) <= multiset(rest + [x]) && multiset(t') + multiset{x} == multiset(t)
    ensures multiset(t') <= multiset(rest)
  {
    var m, m', r := multiset(t), multiset(t'), multiset(rest);
    assert multiset(rest + [x]) == r + multiset{x};
    forall y
      ensures m'[y] <= r[y]
    {
      assert m[y] == m'[y] + multiset{x}[y] && m[y] <= (r + multiset{x})[y];
    }
  }

  lemma {:induction false} PrefixIsLargest(sorted: seq<DataFile>, cfg: Config, k: nat, t: seq<DataFile>)
    requires Ascending(sorted) && PickedFrom(t, sorted) && FitsExactly(sorted, cfg, k)
    requires |t| <= cfg.maxFiles && (Budgeted(cfg) ==> Sum(t) <= cfg.maxBytes)
    ensures |t| <= k
  {
    PrefixIsLightest(sorted, t, |t|);
    if k < |t| {
      SumGrows(sorted, k + 1, |t|);
    }
  }

  /** No choice of candidates within both limits has more files than the one taken. */
  lemma {:induction false} SelectionIsOptimal(
      files: seq<DataFile>, cfg: Config, counts: Counts, k: nat, t: seq<DataFile>)
    requires FitsExactly(BySize(Candidates(files, cfg, counts)), cfg, k)
    requires multiset(t) <= multiset(Candidates(files, cfg, counts))
    requires |t| <= cfg.maxFiles && (0 < cfg.maxBytes < U64_MAX ==> Sum(t) <= cfg.maxBytes)
    ensures |t| <= k
  {
    var candidates := Candidates(files, cfg, counts);
    BySizeSorts(candidates);
    PrefixIsLargest(BySize(candidates), cfg, k, t);
  }

  /** Without a budget only the cap counts. */
  lemma ZeroBudgetTakesAll(sorted: seq<DataFile>, cfg: Config, k: nat)
    requires FitsExactly(sorted, cfg, k) && cfg.maxBytes == 0
    ensures k == if |sorted| < cfg.maxFiles then |sorted| else cfg.maxFiles
  {
  }

  // ----- Grouping by partition -----

  function InPartition(files: seq<DataFile>, content: Content, partition: nat): seq<DataFile> {
    if files == [] then []
    else
      var f := files[|files| - 1];
      InPartition(files[..|files| - 1], content, partition)
      + if f.content == content && f.partition == partition then [f] else []
  }

  function GroupOf(groups: map<nat, seq<DataFile>>, p: nat): seq<DataFile> {
    if p in groups then groups[p] else []
  }

  ghost predicate Grouped(groups: map<nat, seq<DataFile>>, files: seq<DataFile>, content: Content) {
    forall p :: GroupOf(groups, p) == InPartition(files, content, p)
  }

  lemma GroupNext(groups: map<nat, seq<DataFile>>, files: seq<DataFile>, content: Content, f: DataFile)
    requires Grouped(groups, files, content)
    ensures f.content != content ==> Grouped(groups, files + [f], content)
    ensures f.content == content ==>
              Grouped(groups[f.partition := GroupOf(groups, f.partition) + [f]], files + [f], content)
  {
    forall p
      ensures InPartition(files + [f], content, p)
              == InPartition(files, content, p) + if f.content == content && f.partition == p then [f] else []
    {
      assert (files + [f])[..|files|] == files;
    }
  }

  /** The files of one kind by partition, each group in the order of the list. */
  method GroupByPartition(files: seq<DataFile>, content: Content) returns (groups: map<nat, seq<DataFile>>)
    ensures Grouped(groups, files, content)
    ensures forall p | p in groups :: groups[p] != []
  {
    groups := map[];
    for i := 0 to |files|
      invariant Grouped(groups, files[..i], content)
      invariant forall p | p in groups :: groups[p] != []
    {
      var f := files[i];
      assert files[..i + 1] == files[..i] + [f];
      GroupNext(groups, files[..i], content, f);
      if f.content != content {
        continue;
      }
      groups := groups[f.partition := GroupOf(groups, f.partition) + [f]];
    }
    assert files[..|files|] == files;
  }

  datatype Group = Group(files: seq<DataFile>, deletes: seq<DataFile>)

  ghost predicate SelectedFrom(
      group: Group, all: seq<DataFile>, deletes: seq<DataFile>, p: nat, cfg: Config, counts: Counts)
  {
    && group.files != [] && group.files <= BySize(Candidates(InPartition(all, Data, p), cfg, counts))
    && FitsExactly(BySize(Candidates(InPartition(all, Data, p), cfg, counts)), cfg, |group.files|)
    && group.deletes == InPartition(deletes, PositionDelete, p)
  }

  /** One group per partition with something to take, carrying exactly the position
      deletes of that partition. */
  method SelectCandidates(all: seq<DataFile>, deletes: seq<DataFile>, cfg: Config, counts: Counts)
    returns (groups: map<nat, Group>)
    requires cfg.maxBytes <= U64_MAX
    ensures forall p | p in groups :: SelectedFrom(groups[p], all, deletes, p, cfg, counts)
    ensures forall p | p !in groups :: FitsExactly(BySize(Candidates(InPartition(all, Data, p), cfg, counts)), cfg, 0)
  {
    var deletesBy := GroupByPartition(deletes, PositionDelete);
    var partitions := GroupByPartition(all, Data);
    groups := map[];
    var todo := partitions.Keys;
    while todo != {}
      invariant todo <= partitions.Keys
      invariant groups.Keys <= partitions.Keys - todo
      invariant forall p | p in groups :: SelectedFrom(groups[p], all, deletes, p, cfg, counts)
      invariant forall p | p in partitions.Keys - todo && p !in groups ::
                  FitsExactly(BySize(Candidates(InPartition(all, Data, p), cfg, counts)), cfg, 0)
    {
      var p :| p in todo;
      todo := todo - {p};
      assert GroupOf(partitions, p) == InPartition(all, Data, p);
      assert GroupOf(deletesBy, p) == InPartition(deletes, PositionDelete, p);
      var kept := SelectWithinPartition(partitions[p], cfg, counts);
      if kept != [] {
        groups := groups[p := Group(kept, GroupOf(deletesBy, p))];
        assert SelectedFrom(groups[p], all, deletes, p, cfg, counts);
      }
    }
    forall p | p !in partitions
      ensures FitsExactly(BySize(Candidates(InPartition(all, Data, p), cfg, counts)), cfg, 0)
    {
      assert GroupOf(partitions, p) == [];
      NothingFromNothing(cfg, counts);
    }
  }

  lemma NothingFromNothing(cfg: Config, counts: Counts)
    ensures BySize(Candidates([], cfg, counts)) == []
    ensures FitsExactly([], cfg, 0)
  {
    assert OfKind([], cfg, Small) == [] && OfKind([], cfg, Mid) == [] && OfKind([], cfg, Large) == [];
    assert Candidates([], cfg, counts) == [];
  }
}
