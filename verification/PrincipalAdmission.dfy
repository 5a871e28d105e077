/**
Per-principal concurrency limits (`PrincipalRegistry::acquire` in
crates/teodb-api/src/admission.rs). The registry holds weak references; a semaphore
lives as long as a permit or a caller between lookup and acquisition holds it.
*/
module PrincipalAdmission {
  import opened Sizes
  import opened OverflowStripes

  // A tracked semaphore has an identity of its own; a stripe's lives for ever.
  datatype Semaphore = Tracked(id: nat) | Striped(stripe: nat)

  datatype Holder = Holder(key: string, semaphore: Semaphore)

  datatype Config = Config(maxEntries: nat, permits: nat, hash: Hash)

  function StripeOf(cfg: Config, key: string): Semaphore {
    Striped(Stripe(cfg.hash, key))
  }

  // ----- The locked part of an acquisition -----

  datatype Lookup = Lookup(entries: map<string, nat>, semaphore: Semaphore, created: bool)

  /** The live entries of the other keys. */
  function Living(entries: map<string, nat>, alive: set<nat>, key: string): map<string, nat> {
    map k | k in entries && k != key && entries[k] in alive :: entries[k]
  }

  /** `alive` are the tracked semaphores with a strong reference, `newId` is the
      identity that a new one gets. */
  function LookupSemaphore(cfg: Config, entries: map<string, nat>, alive: set<nat>, newId: nat, key: string): Lookup {
    if key in entries && entries[key] in alive then Lookup(entries, Tracked(entries[key]), false)
    else
      var kept := Living(entries, alive, key);
      if |kept| < cfg.maxEntries then Lookup(kept[key := newId], Tracked(newId), true)
      else Lookup(kept, StripeOf(cfg, key), false)
  }

  class PrincipalRegistry {
    const cfg: Config
    var entries: map<string, nat>
    var nextId: nat

    constructor (cfg: Config)
      ensures this.cfg == cfg && entries == map[] && nextId == 0
    {
      this.cfg := cfg;
      entries := map[];
      nextId := 0;
    }

    /** The section under the lock: the semaphore to try, and the registry after it. */
    method FindSemaphore(key: string, alive: set<nat>) returns (semaphore: Semaphore)
      modifies this
      ensures var l := LookupSemaphore(cfg, old(entries), alive, old(nextId), key);
              && semaphore == l.semaphore && entries == l.entries
              && nextId == old(nextId) + if l.created then 1 else 0
    {
      if key in entries && entries[key] in alive {
        return Tracked(entries[key]);
      }
      entries := entries - {key};
      entries := map k | k in entries && entries[k] in alive :: entries[k];
      assert entries == Living(old(entries), alive, key);
      if |entries| < cfg.maxEntries {
        semaphore := Tracked(nextId);
        entries := entries[key := nextId];
        nextId := nextId + 1;
      } else {
        semaphore := StripeOf(cfg, key);
      }
    }
  }

  // ----- Interleavings -----

  // Callers between lookup and acquisition, and permits that are out.
  datatype State = State(entries: map<string, nat>, nextId: nat, callers: map<nat, Holder>, permits: map<nat, Holder>)

  const EMPTY := State(map[], 0, map[], map[])

  datatype Event =
    | Find(caller: nat, key: string)
    | TryAcquire(caller: nat, permit: nat)
    | Drop(permit: nat)

  ghost function Alive(s: State): set<nat> {
    (set c | c in s.callers && s.callers[c].semaphore.Tracked? :: s.callers[c].semaphore.id)
    + (set p | p in s.permits && s.permits[p].semaphore.Tracked? :: s.permits[p].semaphore.id)
  }

  ghost function Out(permits: map<nat, Holder>, semaphore: Semaphore): set<nat> {
    set p | p in permits && permits[p].semaphore == semaphore
  }

  ghost predicate Step(cfg: Config, s: State, ev: Event, s': State) {
    match ev
    case Find(c, key) =>
      && c !in s.callers
      && var l := LookupSemaphore(cfg, s.entries, Alive(s), s.nextId, key);
         s' == s.(entries := l.entries, nextId := if l.created then s.nextId + 1 else s.nextId,
                  callers := s.callers[c := Holder(key, l.semaphore)])
    case TryAcquire(c, p) =>
      && c in s.callers && p !in s.permits
      && s' == s.(callers := s.callers - {c},
                  permits := if |Out(s.permits, s.callers[c].semaphore)| < cfg.permits
                             then s.permits[p := s.callers[c]] else s.permits)
    case Drop(p) =>
      p in s.permits && s' == s.(permits := s.permits - {p})
  }

  ghost predicate Run(cfg: Config, states: seq<State>, events: seq<Event>) {
    && |states| == |events| + 1 && states[0] == EMPTY
    && forall i | 0 <= i < |events| :: Step(cfg, states[i], events[i], states[i + 1])
  }

  /** A tracked semaphore that somebody holds is the registered one of its key. */
  ghost predicate Registered(cfg: Config, s: State, h: Holder) {
    match h.semaphore
    case Tracked(id) => h.key in s.entries && s.entries[h.key] == id
    case Striped(_) => h.semaphore == StripeOf(cfg, h.key)
  }

  ghost predicate AllRegistered(cfg: Config, s: State) {
    && (forall c | c in s.callers :: Registered(cfg, s, s.callers[c]))
    && (forall p | p in s.permits :: Registered(cfg, s, s.permits[p]))
  }

  ghost predicate EntriesOk(cfg: Config, s: State) {
    && |s.entries| <= cfg.maxEntries
    && (forall k | k in s.entries :: s.entries[k] < s.nextId)
    && (forall k, k' | k in s.entries && k' in s.entries && s.entries[k] == s.entries[k'] :: k == k')
  }

  ghost predicate WithinPermits(cfg: Config, permits: map<nat, Holder>) {
    forall sem :: |Out(permits, sem)| <= cfg.permits
  }

  ghost predicate Inv(cfg: Config, s: State) {
    AllRegistered(cfg, s) && EntriesOk(cfg, s) && WithinPermits(cfg, s.permits)
  }

  lemma AliveHolders(s: State)
    ensures forall c | c in s.callers && s.callers[c].semaphore.Tracked? :: s.callers[c].semaphore.id in Alive(s)
    ensures forall p | p in s.permits && s.permits[p].semaphore.Tracked? :: s.permits[p].semaphore.id in Alive(s)
  {
  }

  lemma OneMoreEntry(a: map<string, nat>, key: string, id: nat)
    ensures |a[key := id]| <= |a| + 1
  {
    assert a[key := id].Keys == a.Keys + {key};
    assert |a[key := id]| == |a[key := id].Keys| && |a| == |a.Keys|;
  }

  lemma FindKeepsEntries(cfg: Config, s: State, c: nat, key: string, s': State)
    requires EntriesOk(cfg, s) && Step(cfg, s, Find(c, key), s')
    ensures EntriesOk(cfg, s')
  {
    var alive := Alive(s);
    if !(key in s.entries && s.entries[key] in alive) {
      var kept := Living(s.entries, alive, key);
      FewerKeys(kept, s.entries);
      OneMoreEntry(kept, key, s.nextId);
    }
  }

  /** Looking a key up removes no semaphore that anybody holds. */
  lemma FindKeepsRegistered(cfg: Config, s: State, c: nat, key: string, s': State, h: Holder)
    requires AllRegistered(cfg, s) && Step(cfg, s, Find(c, key), s') && Registered(cfg, s, h)
    requires h.semaphore.Tracked? ==> h.semaphore.id in Alive(s)
    ensures Registered(cfg, s', h)
  {
  }

  lemma FindKeepsInv(cfg: Config, s: State, c: nat, key: string, s': State)
    requires Inv(cfg, s) && Step(cfg, s, Find(c, key), s')
    ensures Inv(cfg, s')
  {
    FindKeepsEntries(cfg, s, c, key, s');
    AliveHolders(s);
    forall d | d in s'.callers
      ensures Registered(cfg, s', s'.callers[d])
    {
      if d != c {
        FindKeepsRegistered(cfg, s, c, key, s', s.callers[d]);
      }
    }
    forall p | p in s'.permits
      ensures Registered(cfg, s', s'.permits[p])
    {
      FindKeepsRegistered(cfg, s, c, key, s', s.permits[p]);
    }
  }

  lemma AddPermit(cfg: Config, permits: map<nat, Holder>, p: nat, h: Holder)
    requires WithinPermits(cfg, permits) && p !in permits && |Out(permits, h.semaphore)| < cfg.permits
    ensures WithinPermits(cfg, permits[p := h])
  {
    var after := permits[p := h];
    forall sem
      ensures |Out(after, sem)| <= cfg.permits
    {
      if sem == h.semaphore {
        assert Out(after, sem) == Out(permits, sem) + {p};
      } else {
        assert Out(after, sem) == Out(permits, sem);
      }
    }
  }

  lemma RemovePermit(cfg: Config, permits: map<nat, Holder>, p: nat)
    requires WithinPermits(cfg, permits)
    ensures WithinPermits(cfg, permits - {p})
  {
    var after := permits - {p};
    forall sem
      ensures |Out(after, sem)| <= cfg.permits
    {
      SubsetSize(Out(after, sem), Out(permits, sem));
    }
  }

  lemma TryKeepsInv(cfg: Config, s: State, c: nat, p: nat, s': State)
    requires Inv(cfg, s) && Step(cfg, s, TryAcquire(c, p), s')
    ensures Inv(cfg, s')
  {
    var h := s.callers[c];
    assert Registered(cfg, s, h);
    if |Out(s.permits, h.semaphore)| < cfg.permits {
      AddPermit(cfg, s.permits, p, h);
    }
  }

  lemma DropKeepsInv(cfg: Config, s: State, p: nat, s': State)
    requires Inv(cfg, s) && Step(cfg, s, Drop(p), s')
    ensures Inv(cfg, s')
  {
    RemovePermit(cfg, s.permits, p);
  }

  lemma {:induction false} RunKeepsInv(cfg: Config, states: seq<State>, events: seq<Event>, i: nat)
    requires Run(cfg, states, events) && i < |states|
    ensures Inv(cfg, states[i])
  {
    if i == 0 {
      assert forall sem :: Out(map[], sem) == {};
    } else {
      RunKeepsInv(cfg, states, events, i - 1);
      var s, ev, s' := states[i - 1], events[i - 1], states[i];
      assert Step(cfg, s, ev, s');
      match ev
      case Find(c, key) => FindKeepsInv(cfg, s, c, key, s');
      case TryAcquire(c, p) => TryKeepsInv(cfg, s, c, p, s');
      case Drop(p) => DropKeepsInv(cfg, s, p, s');
    }
  }

  // ----- The bounds -----

  /** Every live tracked semaphore is still in the registry. */
  lemma LiveIsRegistered(cfg: Config, states: seq<State>, events: seq<Event>, i: nat, id: nat)
    requires Run(cfg, states, events) && i < |states| && id in Alive(states[i])
    ensures exists k :: k in states[i].entries && states[i].entries[k] == id
  {
    RunKeepsInv(cfg, states, events, i);
    var s := states[i];
    if c :| c in s.callers && s.callers[c].semaphore == Tracked(id) {
      assert Registered(cfg, s, s.callers[c]);
    } else {
      var p :| p in s.permits && s.permits[p].semaphore == Tracked(id);
      assert Registered(cfg, s, s.permits[p]);
    }
  }

  ghost function PermitsOf(s: State, key: string): set<nat> {
    set p | p in s.permits && s.permits[p].key == key
  }

  /** One principal holds at most twice the permits: those of its own semaphore and
      those of its stripe. */
  lemma PrincipalIsBounded(cfg: Config, states: seq<State>, events: seq<Event>, i: nat, key: string)
    requires Run(cfg, states, events) && i < |states|
    ensures |PermitsOf(states[i], key)| <= 2 * cfg.permits
  {
    RunKeepsInv(cfg, states, events, i);
    var s := states[i];
    var stripe := Out(s.permits, StripeOf(cfg, key));
    var own := if key in s.entries then Out(s.permits, Tracked(s.entries[key])) else {};
    forall p | p in PermitsOf(s, key)
      ensures p in own + stripe
    {
      assert Registered(cfg, s, s.permits[p]);
    }
    SubsetSize(PermitsOf(s, key), own + stripe);
    assert |own + stripe| <= |own| + |stripe|;
  }

  ghost function OutOf(permits: map<nat, Holder>, semaphores: set<Semaphore>): set<nat> {
    set p | p in permits && permits[p].semaphore in semaphores
  }

  lemma {:induction false} OutOfMany(cfg: Config, permits: map<nat, Holder>, semaphores: set<Semaphore>)
    requires WithinPermits(cfg, permits)
    ensures |OutOf(permits, semaphores)| <= |semaphores| * cfg.permits
    decreases |semaphores|
  {
    if semaphores == {} {
      assert OutOf(permits, semaphores) == {};
    } else {
      var sem :| sem in semaphores;
      var rest := semaphores - {sem};
      OutOfMany(cfg, permits, rest);
      assert OutOf(permits, semaphores) == OutOf(permits, rest) + Out(permits, sem);
      assert |OutOf(permits, semaphores)| <= |OutOf(permits, rest)| + |Out(permits, sem)|;
      assert |semaphores| * cfg.permits == |rest| * cfg.permits + cfg.permits;
    }
  }

  ghost function TrackedOf(entries: map<string, nat>): set<Semaphore> {
    set k | k in entries :: Tracked(entries[k])
  }

  lemma {:induction false} TrackedSize(entries: map<string, nat>)
    ensures |TrackedOf(entries)| <= |entries|
    decreases |entries|
  {
    if entries != map[] {
      var k :| k in entries;
      var rest := entries - {k};
      assert entries.Keys == rest.Keys + {k};
      assert |entries| == |entries.Keys| && |rest| == |rest.Keys|;
      TrackedSize(rest);
      assert TrackedOf(entries) == TrackedOf(rest) + {Tracked(entries[k])};
    } else {
      assert TrackedOf(entries) == {};
    }
  }

  ghost function Stripes(n: nat): set<Semaphore> {
    set i | 0 <= i < n :: Striped(i)
  }

  lemma {:induction false} StripesSize(n: nat)
    ensures |Stripes(n)| == n
  {
    if n == 0 {
      assert Stripes(0) == {};
    } else {
      StripesSize(n - 1);
      assert Stripes(n) == Stripes(n - 1) + {Striped(n - 1)};
    }
  }

  lemma AllSemaphores(cfg: Config, s: State)
    requires AllRegistered(cfg, s)
    ensures s.permits.Keys == OutOf(s.permits, TrackedOf(s.entries) + Stripes(OVERFLOW_STRIPES))
  {
    forall p | p in s.permits
      ensures s.permits[p].semaphore in TrackedOf(s.entries) + Stripes(OVERFLOW_STRIPES)
    {
      assert Registered(cfg, s, s.permits[p]);
    }
  }

  /** All principals together hold at most the permits of a full registry and of all
      stripes. */
  lemma TotalIsBounded(cfg: Config, states: seq<State>, events: seq<Event>, i: nat)
    requires Run(cfg, states, events) && i < |states|
    ensures |states[i].permits| <= (cfg.maxEntries + OVERFLOW_STRIPES) * cfg.permits
  {
    RunKeepsInv(cfg, states, events, i);
    var s := states[i];
    var semaphores := TrackedOf(s.entries) + Stripes(OVERFLOW_STRIPES);
    AllSemaphores(cfg, s);
    assert |s.permits| == |s.permits.Keys|;
    OutOfMany(cfg, s.permits, semaphores);
    TrackedSize(s.entries);
    StripesSize(OVERFLOW_STRIPES);
    assert |semaphores| <= |TrackedOf(s.entries)| + |Stripes(OVERFLOW_STRIPES)|;
    Multiply(|semaphores|, cfg.maxEntries + OVERFLOW_STRIPES, cfg.permits);
  }

  lemma Multiply(a: nat, b: nat, c: nat)
    requires a <= b
    ensures a * c <= b * c
  {
  }
}
