/**
The files that retention protects (`collect_referenced_paths`, `retained_file_set`
and `live_data_files` in crates/teodb-catalog/src/adapter/manifests.rs).
*/
module RetainedFiles {
  import opened Wrappers
  import opened Retention

  // A snapshot and the manifest paths of its manifest list, if the list can be read.
  datatype Snapshot = Snapshot(stamp: Stamp, manifests: Option<seq<string>>)

  // The readable manifests and the file paths their entries record.
  type Store = map<string, seq<string>>

  ghost predicate Readable(s: Snapshot, store: Store) {
    s.manifests.Some? && forall m | m in s.manifests.value :: m in store
  }

  /** Every path of every manifest of every included snapshot. */
  function PlainUnion(snapshots: seq<Snapshot>, store: Store, wanted: set<int>): set<string> {
    set s, m, p | s in snapshots && s.stamp.id in wanted && s.manifests.Some? && m in s.manifests.value
                  && m in store && p in store[m] :: p
  }

  function PathsOf(manifests: set<string>, store: Store): set<string> {
    set m, p | m in manifests && m in store && p in store[m] :: p
  }

  ghost function ManifestsOf(snapshots: seq<Snapshot>, wanted: set<int>): set<string> {
    set s, m | s in snapshots && s.stamp.id in wanted && s.manifests.Some? && m in s.manifests.value :: m
  }

  lemma UnionByManifest(snapshots: seq<Snapshot>, store: Store, wanted: set<int>)
    ensures PlainUnion(snapshots, store, wanted) == PathsOf(ManifestsOf(snapshots, wanted), store)
  {
    forall p | p in PathsOf(ManifestsOf(snapshots, wanted), store)
      ensures p in PlainUnion(snapshots, store, wanted)
    {
      var m :| m in ManifestsOf(snapshots, wanted) && m in store && p in store[m];
      var s :| s in snapshots && s.stamp.id in wanted && s.manifests.Some? && m in s.manifests.value;
    }
  }

  /** The manifests of one snapshot, each read only if no earlier snapshot had it. */
  method CollectSnapshot(manifests: seq<string>, store: Store, seen: set<string>, referenced: set<string>)
    returns (ok: bool, seen': set<string>, referenced': set<string>)
    requires referenced == PathsOf(seen, store) && forall m | m in seen :: m in store
    ensures ok <==> forall m | m in manifests :: m in store
    ensures ok ==> seen' == seen + (set m | m in manifests) && (forall m | m in seen' :: m in store)
                   && referenced' == PathsOf(seen', store)
  {
    seen', referenced' := seen, referenced;
    for i := 0 to |manifests|
      invariant forall m | m in manifests[..i] :: m in store
      invariant seen' == seen + set m | m in manifests[..i]
      invariant forall m | m in seen' :: m in store
      invariant referenced' == PathsOf(seen', store)
    {
      var path := manifests[i];
      assert manifests[..i + 1] == manifests[..i] + [path];
      if path in seen' {
        continue;
      }
      ghost var before := seen';
      seen' := seen' + {path};
      if path !in store {
        return false, seen', referenced';
      }
      for j := 0 to |store[path]|
        invariant referenced' == PathsOf(before, store) + set p | p in store[path][..j]
      {
        referenced' := referenced' + {store[path][j]};
        assert store[path][..j + 1] == store[path][..j] + [store[path][j]];
      }
      assert store[path][..|store[path]|] == store[path];
      assert PathsOf(seen', store) == PathsOf(before, store) + set p | p in store[path];
    }
    assert manifests[..|manifests|] == manifests;
    ok := true;
  }

  /** Reading each manifest once gives the plain union over the included snapshots,
      and fails exactly when one of them cannot be read. */
  method CollectReferencedPaths(snapshots: seq<Snapshot>, store: Store, wanted: set<int>)
    returns (r: Option<set<string>>)
    ensures r.Some? <==> forall s | s in snapshots && s.stamp.id in wanted :: Readable(s, store)
    ensures r.Some? ==> r.value == PlainUnion(snapshots, store, wanted)
  {
    var referenced: set<string> := {};
    var seen: set<string> := {};
    for i := 0 to |snapshots|
      invariant forall s | s in snapshots[..i] && s.stamp.id in wanted :: Readable(s, store)
      invariant seen == ManifestsOf(snapshots[..i], wanted) && forall m | m in seen :: m in store
      invariant referenced == PathsOf(seen, store)
    {
      var s := snapshots[i];
      assert snapshots[..i + 1] == snapshots[..i] + [s];
      if s.stamp.id !in wanted {
        continue;
      }
      if s.manifests.None? {
        return None;
      }
      var ok;
      ghost var before := seen;
      ok, seen, referenced := CollectSnapshot(s.manifests.value, store, seen, referenced);
      if !ok {
        return None;
      }
      assert ManifestsOf(snapshots[..i + 1], wanted) == before + set m | m in s.manifests.value;
    }
    assert snapshots[..|snapshots|] == snapshots;
    UnionByManifest(snapshots, store, wanted);
    return Some(referenced);
  }

  function Stamps(snapshots: seq<Snapshot>): seq<Stamp> {
    seq(|snapshots|, i requires 0 <= i < |snapshots| => snapshots[i].stamp)
  }

  ghost predicate RetainsFilesOf(snapshots: seq<Snapshot>, store: Store, id: int, paths: set<string>) {
    forall s, m, p | s in snapshots && s.stamp.id == id && s.manifests.Some? && m in s.manifests.value
                     && m in store && p in store[m] :: p in paths
  }

  /** The retained file set: the plain union over the snapshots that do not expire. */
  method RetainedFileSet(
      snapshots: seq<Snapshot>, store: Store, current: Option<int>, policy: Policy, protected: set<int>, now: int)
    returns (retained: set<int>, paths: Option<set<string>>)
    ensures retained == Ids(Stamps(snapshots)) - Expired(Stamps(snapshots), current, policy, protected, now)
    ensures paths.Some? <==> forall s | s in snapshots && s.stamp.id in retained :: Readable(s, store)
    ensures paths.Some? ==> paths.value == PlainUnion(snapshots, store, retained)
    ensures paths.Some? ==>
              && (current.Some? ==> RetainsFilesOf(snapshots, store, current.value, paths.value))
              && (forall id | id in protected :: RetainsFilesOf(snapshots, store, id, paths.value))
  {
    var history := Stamps(snapshots);
    var expired := SelectExpired(history, current, policy, protected, now);
    retained := Ids(history) - expired;
    paths := CollectReferencedPaths(snapshots, store, retained);
    NeverExpires(history, current, policy, protected, now);
    if paths.Some? {
      forall id | id !in expired
        ensures RetainsFilesOf(snapshots, store, id, paths.value)
      {
        RetainedKeepsFiles(snapshots, store, expired, id);
      }
    }
  }

  lemma RetainedKeepsFiles(snapshots: seq<Snapshot>, store: Store, expired: set<int>, id: int)
    requires id !in expired
    ensures RetainsFilesOf(snapshots, store, id, PlainUnion(snapshots, store, Ids(Stamps(snapshots)) - expired))
  {
    var history := Stamps(snapshots);
    forall s | s in snapshots && s.stamp.id == id
      ensures id in Ids(history) - expired
    {
      var i :| 0 <= i < |snapshots| && snapshots[i] == s;
      assert history[i] == s.stamp;
    }
  }

  // ----- Live files -----

  datatype Entry = Entry(path: string, alive: bool)

  function LiveOf(entries: seq<Entry>, removed: set<string>): seq<string> {
    if entries == [] then []
    else
      var e := entries[|entries| - 1];
      LiveOf(entries[..|entries| - 1], removed) + if e.alive && e.path !in removed then [e.path] else []
  }

  function Concat(manifests: seq<seq<Entry>>): seq<Entry> {
    if manifests == [] then [] else Concat(manifests[..|manifests| - 1]) + manifests[|manifests| - 1]
  }

  lemma {:induction false} LiveOfConcat(a: seq<Entry>, b: seq<Entry>, removed: set<string>)
    ensures LiveOf(a + b, removed) == LiveOf(a, removed) + LiveOf(b, removed)
  {
    if b == [] {
      assert a + b == a;
    } else {
      assert (a + b)[..|a + b| - 1] == a + b[..|b| - 1];
      LiveOfConcat(a, b[..|b| - 1], removed);
    }
  }

  lemma {:induction false} LiveMembers(entries: seq<Entry>, removed: set<string>, p: string)
    ensures p in LiveOf(entries, removed) <==> Entry(p, true) in entries && p !in removed
  {
    if entries != [] {
      LiveMembers(entries[..|entries| - 1], removed, p);
      assert entries == entries[..|entries| - 1] + [entries[|entries| - 1]];
    }
  }

  lemma {:induction false} ConcatMembers(manifests: seq<seq<Entry>>, e: Entry)
    ensures e in Concat(manifests) <==> exists m :: m in manifests && e in m
  {
    if manifests != [] {
      ConcatMembers(manifests[..|manifests| - 1], e);
      assert manifests == manifests[..|manifests| - 1] + [manifests[|manifests| - 1]];
    }
  }

  /** The live files of the current snapshot's manifests, in manifest order and as often
      as recorded: the paths of alive entries that the lineage has not removed. */
  method LiveDataFiles(manifests: seq<seq<Entry>>, removed: set<string>) returns (files: seq<string>)
    ensures files == LiveOf(Concat(manifests), removed)
    ensures forall p :: p in files <==> (exists m :: m in manifests && Entry(p, true) in m) && p !in removed
  {
    files := [];
    for i := 0 to |manifests|
      invariant files == LiveOf(Concat(manifests[..i]), removed)
    {
      ghost var before := files;
      for j := 0 to |manifests[i]|
        invariant files == before + LiveOf(manifests[i][..j], removed)
      {
        var entry := manifests[i][j];
        assert manifests[i][..j + 1][..j] == manifests[i][..j];
        if entry.alive && entry.path !in removed {
          files := files + [entry.path];
        }
      }
      assert manifests[i][..|manifests[i]|] == manifests[i];
      assert manifests[..i + 1][..i] == manifests[..i];
      LiveOfConcat(Concat(manifests[..i]), manifests[i], removed);
    }
    assert manifests[..|manifests|] == manifests;
    forall p
      ensures p in files <==> (exists m :: m in manifests && Entry(p, true) in m) && p !in removed
    {
      LiveMembers(Concat(manifests), removed, p);
      ConcatMembers(manifests, Entry(p, true));
    }
  }
}
