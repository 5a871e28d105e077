/**
Snapshot retention (`select_expired_snapshots` in
crates/teodb-core/src/snapshot_retention.rs).
*/
module Retention {
  import opened Wrappers
  import opened Sizes

  datatype Stamp = Stamp(id: int, ts: int)

  const I64_MAX: int := 0x7FFF_FFFF_FFFF_FFFF
  const I64_MIN: int := -0x8000_0000_0000_0000

  datatype Policy = Policy(maxAgeMs: nat, keepLast: nat)

  function Keep(policy: Policy): nat {
    if policy.keepLast < 1 then 1 else policy.keepLast
  }

  /** `now_ms.saturating_sub(max_age)` with the age capped at the largest i64. */
  function Cutoff(policy: Policy, now: int): int {
    var cutoff := now - if policy.maxAgeMs > I64_MAX then I64_MAX else policy.maxAgeMs;
    if cutoff < I64_MIN then I64_MIN else cutoff
  }

  // ----- Newest first -----

  function Insert(x: Stamp, s: seq<Stamp>): seq<Stamp> {
    if s == [] || x.ts >= s[0].ts then [x] + s else [s[0]] + Insert(x, s[1..])
  }

  /** A stable sort, newest first: of equal stamps the earlier one stays first. */
  function ByRecency(s: seq<Stamp>): seq<Stamp> {
    if s == [] then [] else Insert(s[0], ByRecency(s[1..]))
  }

  ghost predicate NewestFirst(s: seq<Stamp>) {
    forall i, j | 0 <= i < j < |s| :: s[i].ts >= s[j].ts
  }

  lemma {:induction false} InsertContents(x: Stamp, s: seq<Stamp>)
    ensures multiset(Insert(x, s)) == multiset(s) + multiset{x}
    ensures |Insert(x, s)| == |s| + 1
  {
    if s != [] && x.ts < s[0].ts {
      InsertContents(x, s[1..]);
      assert s == [s[0]] + s[1..];
    }
  }

  lemma {:induction false} InsertMembers(x: Stamp, s: seq<Stamp>)
    ensures forall y :: y in Insert(x, s) <==> y == x || y in s
  {
    if s != [] && x.ts < s[0].ts {
      InsertMembers(x, s[1..]);
      assert s == [s[0]] + s[1..];
    }
  }

  lemma {:induction false} InsertSorts(x: Stamp, s: seq<Stamp>)
    requires NewestFirst(s)
    ensures NewestFirst(Insert(x, s))
  {
    if s != [] && x.ts < s[0].ts {
      InsertSorts(x, s[1..]);
      InsertMembers(x, s[1..]);
      assert forall y | y in s[1..] :: y.ts <= s[0].ts;
      assert forall y | y in Insert(x, s[1..]) :: y.ts <= s[0].ts;
    }
  }

  lemma {:induction false} ByRecencySorts(s: seq<Stamp>)
    ensures NewestFirst(ByRecency(s)) && multiset(ByRecency(s)) == multiset(s) && |ByRecency(s)| == |s|
  {
    if s != [] {
      ByRecencySorts(s[1..]);
      InsertSorts(s[0], ByRecency(s[1..]));
      InsertContents(s[0], ByRecency(s[1..]));
      assert s == [s[0]] + s[1..];
    }
  }

  lemma {:induction false} ByRecencyMembers(s: seq<Stamp>)
    ensures forall x :: x in ByRecency(s) <==> x in s
  {
    ByRecencySorts(s);
    forall x
      ensures x in ByRecency(s) <==> x in s
    {
      assert x in ByRecency(s) <==> x in multiset(ByRecency(s));
    }
  }

  // ----- What expires -----

  predicate Expendable(x: Stamp, current: Option<int>, policy: Policy, protected: set<int>, now: int) {
    x.ts < Cutoff(policy, now) && Some(x.id) != current && x.id !in protected
  }

  function Expired(
      stamps: seq<Stamp>, current: Option<int>, policy: Policy, protected: set<int>, now: int): set<int>
  {
    set k | Keep(policy) <= k < |ByRecency(stamps)| && Expendable(ByRecency(stamps)[k], current, policy, protected, now)
      :: ByRecency(stamps)[k].id
  }

  method SelectExpired(stamps: seq<Stamp>, current: Option<int>, policy: Policy, protected: set<int>, now: int)
    returns (expired: set<int>)
    ensures expired == Expired(stamps, current, policy, protected, now)
  {
    var keepLast := if policy.keepLast > 1 then policy.keepLast else 1;
    var byRecency := ByRecency(stamps);
    expired := {};
    var k := if keepLast < |byRecency| then keepLast else |byRecency|;
    while k < |byRecency|
      invariant k <= |byRecency|
      invariant expired == set i | keepLast <= i < k && Expendable(byRecency[i], current, policy, protected, now)
                             :: byRecency[i].id
    {
      if Expendable(byRecency[k], current, policy, protected, now) {
        expired := expired + {byRecency[k].id};
      }
      k := k + 1;
    }
  }

  ghost predicate DistinctIds(stamps: seq<Stamp>) {
    forall i, j | 0 <= i < j < |stamps| :: stamps[i].id != stamps[j].id
  }

  /** The current and the protected snapshots never expire. */
  lemma NeverExpires(stamps: seq<Stamp>, current: Option<int>, policy: Policy, protected: set<int>, now: int)
    ensures current.Some? ==> current.value !in Expired(stamps, current, policy, protected, now)
    ensures protected !! Expired(stamps, current, policy, protected, now)
  {
  }

  /** The expired set only shrinks as the number kept, the age or the protection grows. */
  lemma ExpiryIsMonotone(
      stamps: seq<Stamp>, current: Option<int>, now: int,
      policy: Policy, protected: set<int>, policy': Policy, protected': set<int>)
    requires policy.keepLast <= policy'.keepLast && policy.maxAgeMs <= policy'.maxAgeMs && protected <= protected'
    ensures Expired(stamps, current, policy', protected', now) <= Expired(stamps, current, policy, protected, now)
  {
    forall id | id in Expired(stamps, current, policy', protected', now)
      ensures id in Expired(stamps, current, policy, protected, now)
    {
      var k :| Keep(policy') <= k < |ByRecency(stamps)|
               && Expendable(ByRecency(stamps)[k], current, policy', protected', now) && ByRecency(stamps)[k].id == id;
      assert Expendable(ByRecency(stamps)[k], current, policy, protected, now);
    }
  }

  function Newer(s: seq<Stamp>, ts: int): nat {
    if s == [] then 0 else (if s[0].ts > ts then 1 else 0) + Newer(s[1..], ts)
  }

  function NotOlder(s: seq<Stamp>, ts: int): nat {
    if s == [] then 0 else (if s[0].ts >= ts then 1 else 0) + NotOlder(s[1..], ts)
  }

  lemma {:induction false} InsertCounts(x: Stamp, s: seq<Stamp>, ts: int)
    ensures Newer(Insert(x, s), ts) == Newer([x] + s, ts)
    ensures NotOlder(Insert(x, s), ts) == NotOlder([x] + s, ts)
  {
    assert ([x] + s)[1..] == s;
    if s != [] && x.ts < s[0].ts {
      InsertCounts(x, s[1..], ts);
      assert ([x] + s[1..])[1..] == s[1..];
      assert ([s[0]] + Insert(x, s[1..]))[1..] == Insert(x, s[1..]);
    }
  }

  lemma {:induction false} SortCounts(s: seq<Stamp>, ts: int)
    ensures Newer(ByRecency(s), ts) == Newer(s, ts) && NotOlder(ByRecency(s), ts) == NotOlder(s, ts)
  {
    if s != [] {
      SortCounts(s[1..], ts);
      InsertCounts(s[0], ByRecency(s[1..]), ts);
      assert ([s[0]] + ByRecency(s[1..]))[1..] == ByRecency(s[1..]);
    }
  }

  lemma {:induction false} RankBounds(s: seq<Stamp>, k: nat)
    requires NewestFirst(s) && k < |s|
    ensures Newer(s, s[k].ts) <= k < NotOlder(s, s[k].ts)
  {
    if k == 0 {
      NoneNewer(s, s[0].ts);
    } else {
      RankBounds(s[1..], k - 1);
    }
  }

  lemma {:induction false} NoneNewer(s: seq<Stamp>, ts: int)
    requires forall x | x in s :: x.ts <= ts
    ensures Newer(s, ts) == 0
  {
    if s != [] {
      assert forall x | x in s[1..] :: x in s;
      NoneNewer(s[1..], ts);
    }
  }

  /** A snapshot expires only if it is expendable and enough others are at least as
      recent, and it does expire if it is expendable and enough are strictly newer. */
  lemma {:induction false} ExpiredByRank(
      stamps: seq<Stamp>, current: Option<int>, policy: Policy, protected: set<int>, now: int, x: Stamp)
    requires DistinctIds(stamps) && x in stamps
    ensures x.id in Expired(stamps, current, policy, protected, now) ==>
              Expendable(x, current, policy, protected, now) && NotOlder(stamps, x.ts) > Keep(policy)
    ensures Expendable(x, current, policy, protected, now) && Newer(stamps, x.ts) >= Keep(policy) ==>
              x.id in Expired(stamps, current, policy, protected, now)
  {
    var sorted := ByRecency(stamps);
    ByRecencySorts(stamps);
    ByRecencyMembers(stamps);
    SortCounts(stamps, x.ts);
    var r :| 0 <= r < |sorted| && sorted[r] == x;
    RankBounds(sorted, r);
    if x.id in Expired(stamps, current, policy, protected, now) {
      var k := ExpiredPosition(stamps, current, policy, protected, now, x.id);
      assert sorted[k] in stamps;
      SameIdSameStamp(stamps, sorted[k], x);
      RankBounds(sorted, k);
    }
  }

  lemma ExpiredPosition(
      stamps: seq<Stamp>, current: Option<int>, policy: Policy, protected: set<int>, now: int, id: int)
    returns (k: nat)
    requires id in Expired(stamps, current, policy, protected, now)
    ensures Keep(policy) <= k < |ByRecency(stamps)| && ByRecency(stamps)[k].id == id
    ensures Expendable(ByRecency(stamps)[k], current, policy, protected, now)
  {
    k :| Keep(policy) <= k < |ByRecency(stamps)|
         && Expendable(ByRecency(stamps)[k], current, policy, protected, now) && ByRecency(stamps)[k].id == id;
  }

  lemma SameIdSameStamp(stamps: seq<Stamp>, x: Stamp, y: Stamp)
    requires DistinctIds(stamps) && x in stamps && y in stamps && x.id == y.id
    ensures x == y
  {
    var i :| 0 <= i < |stamps| && stamps[i] == x;
    var j :| 0 <= j < |stamps| && stamps[j] == y;
  }

  // ----- Rank and age -----

  function Equal(s: seq<Stamp>, ts: int): nat {
    if s == [] then 0 else (if s[0].ts == ts then 1 else 0) + Equal(s[1..], ts)
  }

  /** How many snapshots are more recent: the newer ones, and of those with the same
      stamp the ones listed earlier. */
  function Rank(stamps: seq<Stamp>, i: nat): nat
    requires i < |stamps|
  {
    Newer(stamps, stamps[i].ts) + Equal(stamps[..i], stamps[i].ts)
  }

  lemma {:induction false} InsertPosition(x: Stamp, s: seq<Stamp>, k: nat)
    requires NewestFirst(s) && k < |s|
    ensures |Insert(x, s)| == |s| + 1 && Newer(s, x.ts) <= |s| && Insert(x, s)[Newer(s, x.ts)] == x
    ensures if s[k].ts > x.ts then Insert(x, s)[k] == s[k] else Insert(x, s)[k + 1] == s[k]
    decreases s
  {
    InsertContents(x, s);
    if x.ts >= s[0].ts {
      NoneNewer(s, x.ts);
    } else if |s| == 1 {
      assert Insert(x, s[1..]) == [x] && Newer(s[1..], x.ts) == 0;
    } else {
      InsertContents(x, s[1..]);
      InsertPosition(x, s[1..], if k == 0 then 0 else k - 1);
    }
  }

  lemma {:induction false} RankNext(s: seq<Stamp>, i: nat)
    requires 0 < i < |s|
    ensures Rank(s, i) == Rank(s[1..], i - 1) + if s[0].ts >= s[i].ts then 1 else 0
  {
    assert s[..i][1..] == s[1..][..i - 1];
  }

  /** The first snapshot is inserted after the newer ones. */
  lemma {:induction false} FirstPosition(x: Stamp, s: seq<Stamp>)
    requires NewestFirst(s)
    ensures |Insert(x, s)| == |s| + 1 && Newer(s, x.ts) <= |s| && Insert(x, s)[Newer(s, x.ts)] == x
  {
    if s != [] {
      InsertPosition(x, s, 0);
    }
  }

  lemma {:induction false} NextPosition(stamps: seq<Stamp>, sorted: seq<Stamp>, i: nat, k: nat)
    requires 0 < i < |stamps| && NewestFirst(sorted) && k < |sorted| && sorted[k] == stamps[i]
    ensures |Insert(stamps[0], sorted)| == |sorted| + 1
    ensures Insert(stamps[0], sorted)[if stamps[0].ts >= stamps[i].ts then k + 1 else k] == stamps[i]
  {
    InsertPosition(stamps[0], sorted, k);
  }

  /** Sorted by recency, a snapshot stands at its rank. */
  lemma {:induction false} RankIsPosition(stamps: seq<Stamp>, i: nat)
    requires i < |stamps|
    ensures Rank(stamps, i) < |stamps| == |ByRecency(stamps)| && ByRecency(stamps)[Rank(stamps, i)] == stamps[i]
  {
    ByRecencySorts(stamps[1..]);
    if i == 0 {
      assert stamps[..0] == [];
      SortCounts(stamps[1..], stamps[0].ts);
      FirstPosition(stamps[0], ByRecency(stamps[1..]));
    } else {
      RankIsPosition(stamps[1..], i - 1);
      RankNext(stamps, i);
      NextPosition(stamps, ByRecency(stamps[1..]), i, Rank(stamps[1..], i - 1));
    }
  }

  predicate InI64(n: int) {
    I64_MIN <= n <= I64_MAX
  }

  function Least(a: int, b: int): int {
    if a < b then a else b
  }

  /** A listed snapshot expires if and only if as many snapshots are more recent as the
      policy keeps, it is older than the age, capped at the largest i64, and it is neither
      current nor protected. */
  lemma {:induction false} ExpiredExactly(
      stamps: seq<Stamp>, current: Option<int>, policy: Policy, protected: set<int>, now: int, i: nat)
    requires DistinctIds(stamps) && i < |stamps| && InI64(now) && InI64(stamps[i].ts)
    ensures stamps[i].id in Expired(stamps, current, policy, protected, now) <==>
            && Rank(stamps, i) >= policy.keepLast && Rank(stamps, i) >= 1
            && now - stamps[i].ts > Least(policy.maxAgeMs, I64_MAX)
            && Some(stamps[i].id) != current && stamps[i].id !in protected
  {
    var sorted, x := ByRecency(stamps), stamps[i];
    ByRecencySorts(stamps);
    RankIsPosition(stamps, i);
    SortedIdsDistinct(stamps);
    assert Expendable(x, current, policy, protected, now) <==>
           now - x.ts > Least(policy.maxAgeMs, I64_MAX) && Some(x.id) != current && x.id !in protected;
    if x.id in Expired(stamps, current, policy, protected, now) {
      var k := ExpiredPosition(stamps, current, policy, protected, now, x.id);
      assert k == Rank(stamps, i);
    }
  }

  /** What is younger than the age, or exactly that old, does not expire - for every age
      that fits an i64. */
  lemma YoungIsRetained(
      stamps: seq<Stamp>, current: Option<int>, policy: Policy, protected: set<int>, now: int, i: nat)
    requires DistinctIds(stamps) && i < |stamps| && InI64(now) && InI64(stamps[i].ts)
    requires policy.maxAgeMs <= I64_MAX && now - stamps[i].ts <= policy.maxAgeMs
    ensures stamps[i].id !in Expired(stamps, current, policy, protected, now)
  {
    ExpiredExactly(stamps, current, policy, protected, now, i);
  }

  /** An age beyond i64 is cut off there: a snapshot of half that age expires. */
  lemma HugeAgeIsCut()
    ensures var stamps := [Stamp(1, I64_MIN), Stamp(2, I64_MAX)];
            var policy := Policy(4 * I64_MAX, 1);
            I64_MAX - stamps[0].ts < policy.maxAgeMs && Expired(stamps, Some(2), policy, {}, I64_MAX) == {1}
  {
    var stamps := [Stamp(1, I64_MIN), Stamp(2, I64_MAX)];
    var policy := Policy(4 * I64_MAX, 1);
    assert stamps[1..] == [Stamp(2, I64_MAX)] && [Stamp(2, I64_MAX)][1..] == [];
    assert Newer([], I64_MIN) == 0 && Newer(stamps[1..], I64_MIN) == 1;
    assert stamps[..0] == [] && Rank(stamps, 0) == 1;
    ExpiredExactly(stamps, Some(2), policy, {}, I64_MAX, 0);
    ExpiredExactly(stamps, Some(2), policy, {}, I64_MAX, 1);
    ExpiredAreListed(stamps, Some(2), policy, {}, I64_MAX);
  }

  lemma {:induction false} ExpiredAreListed(
      stamps: seq<Stamp>, current: Option<int>, policy: Policy, protected: set<int>, now: int)
    ensures forall id | id in Expired(stamps, current, policy, protected, now) ::
              exists i :: 0 <= i < |stamps| && stamps[i].id == id
  {
    ByRecencyMembers(stamps);
    forall id | id in Expired(stamps, current, policy, protected, now)
      ensures exists i :: 0 <= i < |stamps| && stamps[i].id == id
    {
      var k := ExpiredPosition(stamps, current, policy, protected, now, id);
      assert ByRecency(stamps)[k] in stamps;
    }
  }

  function Ids(stamps: seq<Stamp>): set<int> {
    set x | x in stamps :: x.id
  }

  ghost function FirstIds(s: seq<Stamp>, n: nat): set<int>
    requires n <= |s|
  {
    set i | 0 <= i < n :: s[i].id
  }

  lemma {:induction false} FirstIdsSize(s: seq<Stamp>, n: nat)
    requires DistinctIds(s) && n <= |s|
    ensures |FirstIds(s, n)| == n
  {
    if n > 0 {
      FirstIdsSize(s, n - 1);
      assert FirstIds(s, n) == FirstIds(s, n - 1) + {s[n - 1].id};
    }
  }

  lemma {:induction false} SortedIdsDistinct(stamps: seq<Stamp>)
    requires DistinctIds(stamps)
    ensures DistinctIds(ByRecency(stamps))
  {
    var sorted := ByRecency(stamps);
    ByRecencySorts(stamps);
    ByRecencyMembers(stamps);
    forall i, j | 0 <= i < j < |sorted|
      ensures sorted[i].id != sorted[j].id
    {
      if sorted[i].id == sorted[j].id {
        SameIdSameStamp(stamps, sorted[i], sorted[j]);
        TwiceInSorted(sorted, i, j);
        OnceInDistinct(stamps, sorted[i]);
        assert false;
      }
    }
  }

  lemma TwiceInSorted(s: seq<Stamp>, i: nat, j: nat)
    requires i < j < |s| && s[i] == s[j]
    ensures multiset(s)[s[i]] >= 2
  {
    assert s == s[..j] + [s[j]] + s[j + 1..];
    assert s[..j][i] == s[i];
    assert s[i] in multiset(s[..j]);
  }

  lemma {:induction false} OnceInDistinct(s: seq<Stamp>, x: Stamp)
    requires DistinctIds(s)
    ensures multiset(s)[x] <= 1
  {
    if s != [] {
      assert s == [s[0]] + s[1..];
      OnceInDistinct(s[1..], x);
      if x == s[0] {
        assert x !in s[1..];
      }
    }
  }

  /** The newest snapshots, as many as the policy keeps, do not expire. */
  lemma {:induction false} FirstSurvive(
      stamps: seq<Stamp>, current: Option<int>, policy: Policy, protected: set<int>, now: int, sorted: seq<Stamp>,
      i: nat)
    requires sorted == ByRecency(stamps) && DistinctIds(sorted) && i < |sorted| && i < Keep(policy)
    ensures sorted[i].id !in Expired(stamps, current, policy, protected, now)
  {
    forall k | Keep(policy) <= k < |sorted|
      ensures sorted[k].id != sorted[i].id
    {
    }
  }

  /** At least as many snapshots survive as the policy keeps, or all of them. */
  lemma EnoughSurvive(stamps: seq<Stamp>, current: Option<int>, policy: Policy, protected: set<int>, now: int)
    requires DistinctIds(stamps)
    ensures var retained := Ids(stamps) - Expired(stamps, current, policy, protected, now);
            |retained| >= if Keep(policy) < |stamps| then Keep(policy) else |stamps|
  {
    var sorted := ByRecency(stamps);
    ByRecencySorts(stamps);
    ByRecencyMembers(stamps);
    SortedIdsDistinct(stamps);
    var n := if Keep(policy) < |stamps| then Keep(policy) else |stamps|;
    FirstIdsSize(sorted, n);
    var retained := Ids(stamps) - Expired(stamps, current, policy, protected, now);
    forall id | id in FirstIds(sorted, n)
      ensures id in retained
    {
      var i :| 0 <= i < n && sorted[i].id == id;
      assert sorted[i] in stamps;
      FirstSurvive(stamps, current, policy, protected, now, sorted, i);
    }
    SubsetSize(FirstIds(sorted, n), retained);
  }
}
