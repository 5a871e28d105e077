/**
Which data files the current snapshot has given up: the walk along the lineage
(`removed_data_file_paths_from_snapshots` in
crates/teodb-catalog/src/adapter/manifests.rs).
*/
module Lineage {
  import opened Wrappers

  // The removed-files property of a snapshot summary: absent, a JSON list, or not
  // parseable as one.
  datatype Marker = NoMarker | Paths(paths: seq<string>) | Unparseable

  datatype Snapshot = Snapshot(id: int, parent: Option<int>, marker: Marker)

  datatype WalkError = MissingSnapshot(id: int) | BadMarker(id: int)

  function MarkerPaths(marker: Marker): set<string> {
    if marker.Paths? then set p | p in marker.paths else {}
  }

  /** A path of parent pointers from the current snapshot; its last element may be a
      snapshot that the metadata does not have. */
  ghost predicate IsLineage(byId: map<int, Snapshot>, current: Option<int>, chain: seq<int>) {
    && chain != [] && current == Some(chain[0])
    && forall i, j | 0 <= i < j < |chain| && j == i + 1 :: ParentOf(byId, chain[i], chain[j])
  }

  ghost predicate ParentOf(byId: map<int, Snapshot>, id: int, parent: int) {
    id in byId && byId[id].parent == Some(parent)
  }

  ghost predicate Ancestor(byId: map<int, Snapshot>, current: Option<int>, id: int) {
    exists chain :: IsLineage(byId, current, chain) && chain[|chain| - 1] == id
  }

  ghost predicate Readable(byId: map<int, Snapshot>, id: int) {
    id in byId && !byId[id].marker.Unparseable?
  }

  ghost predicate Removes(byId: map<int, Snapshot>, id: int, path: string) {
    id in byId && path in MarkerPaths(byId[id].marker)
  }

  /** The snapshots by id; of two with the same id the later counts. */
  function IndexOf(snapshots: seq<Snapshot>): map<int, Snapshot> {
    if snapshots == [] then map[]
    else IndexOf(snapshots[..|snapshots| - 1])[snapshots[|snapshots| - 1].id := snapshots[|snapshots| - 1]]
  }

  lemma {:induction false} IndexIsById(snapshots: seq<Snapshot>)
    requires forall i, j | 0 <= i < j < |snapshots| :: snapshots[i].id != snapshots[j].id
    ensures forall i | 0 <= i < |snapshots| ::
              snapshots[i].id in IndexOf(snapshots) && IndexOf(snapshots)[snapshots[i].id] == snapshots[i]
    ensures forall id | id in IndexOf(snapshots) :: exists i :: 0 <= i < |snapshots| && snapshots[i].id == id
  {
    if snapshots != [] {
      var n := |snapshots| - 1;
      IndexIsById(snapshots[..n]);
      forall i | 0 <= i < n
        ensures snapshots[i].id in IndexOf(snapshots) && IndexOf(snapshots)[snapshots[i].id] == snapshots[i]
      {
        assert snapshots[..n][i] == snapshots[i];
      }
      forall id | id in IndexOf(snapshots)
        ensures exists i :: 0 <= i < |snapshots| && snapshots[i].id == id
      {
        if id != snapshots[n].id {
          var i :| 0 <= i < n && snapshots[..n][i].id == id;
          assert snapshots[i].id == id;
        }
      }
    }
  }

  // ----- When the walk ends -----

  /** A path the walk takes: it goes on only past a snapshot it could read. */
  ghost predicate IsWalk(byId: map<int, Snapshot>, current: Option<int>, chain: seq<int>) {
    IsLineage(byId, current, chain) && forall i | 0 <= i < |chain| - 1 :: Readable(byId, chain[i])
  }

  ghost predicate NoRepeat(chain: seq<int>) {
    forall i, j | 0 <= i < j < |chain| :: chain[i] != chain[j]
  }

  ghost predicate WalkNeverRepeats(byId: map<int, Snapshot>, current: Option<int>) {
    forall chain | IsWalk(byId, current, chain) :: NoRepeat(chain)
  }

  ghost predicate WalkWithin(byId: map<int, Snapshot>, current: Option<int>, bound: nat) {
    forall chain | IsWalk(byId, current, chain) :: |chain| <= bound
  }

  lemma {:induction false} DistinctAreFew(chain: seq<int>, ids: set<int>)
    requires NoRepeat(chain) && forall i | 0 <= i < |chain| :: chain[i] in ids
    ensures |chain| <= |ids|
  {
    if chain != [] {
      var n := |chain| - 1;
      assert forall i | 0 <= i < n :: chain[..n][i] == chain[i] && chain[i] in ids - {chain[n]};
      DistinctAreFew(chain[..n], ids - {chain[n]});
    }
  }

  /** From inside a list of readable snapshots closed under parents there is no way out. */
  ghost predicate Closed(byId: map<int, Snapshot>, ids: seq<int>) {
    forall k | 0 <= k < |ids| :: Stays(byId, ids, ids[k])
  }

  ghost predicate Stays(byId: map<int, Snapshot>, ids: seq<int>, id: int) {
    Readable(byId, id) && byId[id].parent.Some? && byId[id].parent.value in ids
  }

  lemma {:induction false} ClosedWalk(byId: map<int, Snapshot>, current: Option<int>, ids: seq<int>, n: nat)
    returns (chain: seq<int>)
    requires Closed(byId, ids) && current.Some? && current.value in ids
    ensures |chain| == n + 1 && IsWalk(byId, current, chain) && chain[n] in ids
  {
    if n == 0 {
      chain := [current.value];
    } else {
      var before := ClosedWalk(byId, current, ids, n - 1);
      var last := before[n - 1];
      assert Stays(byId, ids, last);
      chain := before + [byId[last].parent.value];
      ExtendLineage(byId, current, before, chain[n]);
    }
  }

  lemma RepeatIsClosed(byId: map<int, Snapshot>, current: Option<int>, chain: seq<int>, i: nat, j: nat)
    requires IsWalk(byId, current, chain) && i < j < |chain| && chain[i] == chain[j]
    ensures Closed(byId, chain[..j])
  {
    var ids := chain[..j];
    forall k | 0 <= k < j
      ensures Stays(byId, ids, ids[k])
    {
      assert Readable(byId, chain[k]) && ParentOf(byId, chain[k], chain[k + 1]);
      assert ids[if k + 1 == j then i else k + 1] == chain[k + 1];
    }
  }

  /** The walk ends exactly when no id repeats on its path: then it visits no more
      snapshots than there are, and otherwise it takes paths of every length. */
  lemma WalkEndsUnlessItRepeats(byId: map<int, Snapshot>, current: Option<int>)
    ensures WalkNeverRepeats(byId, current) <==> exists bound :: WalkWithin(byId, current, bound)
  {
    if WalkNeverRepeats(byId, current) {
      forall chain | IsWalk(byId, current, chain)
        ensures |chain| <= |byId.Keys| + 1
      {
        WalkIsShort(byId, current, chain);
      }
      assert WalkWithin(byId, current, |byId.Keys| + 1);
    } else {
      var chain :| IsWalk(byId, current, chain) && !NoRepeat(chain);
      var i, j :| 0 <= i < j < |chain| && chain[i] == chain[j];
      RepeatIsClosed(byId, current, chain, i, j);
      assert chain[..j][0] == chain[0];
      forall bound: nat
        ensures !WalkWithin(byId, current, bound)
      {
        var longer := ClosedWalk(byId, current, chain[..j], bound);
        assert |longer| > bound;
      }
    }
  }

  lemma WalkIsShort(byId: map<int, Snapshot>, current: Option<int>, chain: seq<int>)
    requires IsWalk(byId, current, chain) && NoRepeat(chain)
    ensures |chain| <= |byId.Keys| + 1
  {
    var n := |chain| - 1;
    forall i | 0 <= i < n
      ensures chain[..n][i] in byId.Keys
    {
      assert Readable(byId, chain[i]);
    }
    assert NoRepeat(chain[..n]);
    DistinctAreFew(chain[..n], byId.Keys);
  }

  /** If every parent has a lower rank than its child, the walk ends. */
  lemma RankedNeverRepeats(byId: map<int, Snapshot>, current: Option<int>, rank: int -> int)
    requires forall id | id in byId && byId[id].parent.Some? :: rank(byId[id].parent.value) < rank(id)
    ensures WalkNeverRepeats(byId, current)
  {
    forall chain | IsWalk(byId, current, chain)
      ensures NoRepeat(chain)
    {
      forall i, j | 0 <= i < j < |chain|
        ensures chain[i] != chain[j]
      {
        RankFalls(byId, current, chain, rank, i, j);
      }
    }
  }

  lemma {:induction false} RankFalls(
      byId: map<int, Snapshot>, current: Option<int>, chain: seq<int>, rank: int -> int, i: nat, j: nat)
    requires IsLineage(byId, current, chain) && i < j < |chain|
    requires forall id | id in byId && byId[id].parent.Some? :: rank(byId[id].parent.value) < rank(id)
    ensures rank(chain[j]) < rank(chain[i])
  {
    HasParent(byId, current, chain, j - 1);
    if i < j - 1 {
      RankFalls(byId, current, chain, rank, i, j - 1);
    }
  }

  /** Parent pointers are functions: of two paths one is a prefix of the other. */
  lemma {:induction false} LineagesAgree(byId: map<int, Snapshot>, current: Option<int>, c: seq<int>, d: seq<int>)
    requires IsLineage(byId, current, c) && IsLineage(byId, current, d) && |c| <= |d|
    ensures c == d[..|c|]
  {
    if |c| == 1 {
      assert c[0] == d[0];
    } else {
      var n := |c| - 1;
      assert IsLineage(byId, current, c[..n]) by {
        forall i, j | 0 <= i < j < n && j == i + 1
          ensures ParentOf(byId, c[..n][i], c[..n][j])
        {
          assert c[..n][i] == c[i] && c[..n][j] == c[j];
        }
      }
      LineagesAgree(byId, current, c[..n], d);
      assert c[n - 1] == c[..n][n - 1] == d[..n][n - 1] == d[n - 1];
      assert ParentOf(byId, c[n - 1], c[n]) && ParentOf(byId, d[n - 1], d[n]);
      assert c == c[..n] + [c[n]] && d[..n + 1] == d[..n] + [d[n]];
    }
  }

  lemma ExtendLineage(byId: map<int, Snapshot>, current: Option<int>, chain: seq<int>, id: int)
    requires chain == [] ==> current == Some(id)
    requires chain != [] ==> IsLineage(byId, current, chain) && chain[|chain| - 1] in byId
                             && byId[chain[|chain| - 1]].parent == Some(id)
    ensures IsLineage(byId, current, chain + [id])
  {
  }

  lemma HasParent(byId: map<int, Snapshot>, current: Option<int>, chain: seq<int>, i: nat)
    requires IsLineage(byId, current, chain) && i < |chain| - 1
    ensures ParentOf(byId, chain[i], chain[i + 1])
  {
  }

  /** The complete path, once there is nowhere further to go. */
  lemma FullLineage(byId: map<int, Snapshot>, current: Option<int>, chain: seq<int>, other: seq<int>)
    requires chain == [] ==> current.None?
    requires chain != [] ==> IsLineage(byId, current, chain) && chain[|chain| - 1] in byId
                             && byId[chain[|chain| - 1]].parent.None?
    requires IsLineage(byId, current, other)
    ensures other[|other| - 1] in chain
  {
    if |other| <= |chain| {
      LineagesAgree(byId, current, other, chain);
    } else if chain != [] {
      HasParent(byId, current, other, |chain| - 1);
      LineagesAgree(byId, current, chain, other);
      assert false;
    }
  }

  lemma NextIsNew(byId: map<int, Snapshot>, current: Option<int>, chain: seq<int>, id: int)
    requires WalkNeverRepeats(byId, current) && IsLineage(byId, current, chain + [id]) && id in byId
    requires forall i | 0 <= i < |chain| :: Readable(byId, chain[i])
    ensures NoRepeat(chain + [id]) && |chain| + 1 <= |byId.Keys|
  {
    var longer := chain + [id];
    assert IsWalk(byId, current, longer);
    forall i | 0 <= i < |longer|
      ensures longer[i] in byId.Keys
    {
      assert i < |chain| ==> Readable(byId, chain[i]);
    }
    DistinctAreFew(longer, byId.Keys);
  }

  /** The walk ends; it fails exactly when some ancestor is missing or has an
      unreadable marker, and otherwise returns exactly the markers of the ancestors. */
  method RemovedPaths(current: Option<int>, snapshots: seq<Snapshot>) returns (r: Result<set<string>, WalkError>)
    requires WalkNeverRepeats(IndexOf(snapshots), current)
    ensures var byId := IndexOf(snapshots);
            r.Failure? <==> exists id :: Ancestor(byId, current, id) && !Readable(byId, id)
    ensures var byId := IndexOf(snapshots);
            r.Success? ==> forall p ::
              p in r.value <==> exists id :: Ancestor(byId, current, id) && Removes(byId, id, p)
  {
    var byId := Collect(snapshots);
    ghost var chain: seq<int> := [];
    var removed: set<string> := {};
    var next := current;
    while next.Some?
      invariant chain == [] ==> next == current
      invariant chain != [] ==> IsLineage(byId, current, chain) && chain[|chain| - 1] in byId
                                && next == byId[chain[|chain| - 1]].parent
      invariant forall i | 0 <= i < |chain| :: Readable(byId, chain[i])
      invariant UnionOf(byId, chain, removed)
      invariant NoRepeat(chain) && |chain| <= |byId.Keys|
      decreases |byId.Keys| - |chain|
    {
      var id := next.value;
      ExtendLineage(byId, current, chain, id);
      ghost var longer := chain + [id];
      assert longer[|longer| - 1] == id && Ancestor(byId, current, id);
      if id !in byId {
        return Failure(MissingSnapshot(id));
      }
      var snapshot := byId[id];
      if snapshot.marker.Unparseable? {
        return Failure(BadMarker(id));
      }
      ghost var before := removed;
      removed := removed + MarkerPaths(snapshot.marker);
      ExtendUnion(byId, chain, id, before);
      NextIsNew(byId, current, chain, id);
      next := snapshot.parent;
      chain := longer;
    }
    r := Success(removed);
    WalkedAll(byId, current, chain, removed);
  }

  method Collect(snapshots: seq<Snapshot>) returns (byId: map<int, Snapshot>)
    ensures byId == IndexOf(snapshots)
  {
    byId := map[];
    for i := 0 to |snapshots|
      invariant byId == IndexOf(snapshots[..i])
    {
      byId := byId[snapshots[i].id := snapshots[i]];
      assert snapshots[..i + 1][..i] == snapshots[..i];
    }
    assert snapshots[..|snapshots|] == snapshots;
  }

  ghost predicate UnionOf(byId: map<int, Snapshot>, chain: seq<int>, removed: set<string>) {
    forall p :: p in removed <==> exists i :: 0 <= i < |chain| && Removes(byId, chain[i], p)
  }

  lemma ExtendUnion(byId: map<int, Snapshot>, chain: seq<int>, id: int, removed: set<string>)
    requires id in byId && UnionOf(byId, chain, removed)
    ensures UnionOf(byId, chain + [id], removed + MarkerPaths(byId[id].marker))
  {
    var longer := chain + [id];
    forall p
      ensures p in removed + MarkerPaths(byId[id].marker) <==>
              exists i :: 0 <= i < |longer| && Removes(byId, longer[i], p)
    {
      if p in MarkerPaths(byId[id].marker) {
        assert longer[|chain|] == id && Removes(byId, id, p);
      } else if p in removed {
        var i :| 0 <= i < |chain| && Removes(byId, chain[i], p);
        assert longer[i] == chain[i];
      }
    }
  }

  lemma WalkedAll(byId: map<int, Snapshot>, current: Option<int>, chain: seq<int>, removed: set<string>)
    requires chain == [] ==> current.None?
    requires chain != [] ==> IsLineage(byId, current, chain) && chain[|chain| - 1] in byId
                             && byId[chain[|chain| - 1]].parent.None?
    requires UnionOf(byId, chain, removed)
    ensures forall id :: Ancestor(byId, current, id) <==> id in chain
  {
    forall id
      ensures Ancestor(byId, current, id) <==> id in chain
    {
      if Ancestor(byId, current, id) {
        var other :| IsLineage(byId, current, other) && other[|other| - 1] == id;
        FullLineage(byId, current, chain, other);
      }
      if id in chain {
        var i :| 0 <= i < |chain| && chain[i] == id;
        assert IsLineage(byId, current, chain[..i + 1]);
        assert chain[..i + 1][i] == id;
      }
    }
  }
}
