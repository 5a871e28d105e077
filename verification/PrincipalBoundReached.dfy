/**
A run in which one principal holds twice the permits, for every number of permits. One
entry is tracked; another principal occupies it while the first fills its stripe, and
gives it up before the first comes back.
*/
module PrincipalBoundReached {
  import opened PrincipalAdmission

  ghost predicate Reached(cfg: Config, s: State) {
    exists states: seq<State>, events: seq<Event> :: Run(cfg, states, events) && states[|events|] == s
  }

  type Property = State -> bool

  ghost predicate Kept(cfg: Config, prop: Property) {
    prop(EMPTY) && forall s, ev, s' | prop(s) && Step(cfg, s, ev, s') :: prop(s')
  }

  lemma RunOn(cfg: Config, states: seq<State>, events: seq<Event>, ev: Event, s': State)
    requires Run(cfg, states, events) && Step(cfg, states[|events|], ev, s')
    ensures Run(cfg, states + [s'], events + [ev])
  {
  }

  lemma ReachedIsKept(cfg: Config)
    ensures Kept(cfg, s => Reached(cfg, s))
  {
    assert Run(cfg, [EMPTY], []);
    forall s, ev, s' | Reached(cfg, s) && Step(cfg, s, ev, s')
      ensures Reached(cfg, s')
    {
      var states: seq<State>, events: seq<Event> :| Run(cfg, states, events) && states[|events|] == s;
      RunOn(cfg, states, events, ev, s');
      assert (states + [s'])[|events + [ev]|] == s';
    }
  }

  /** A caller looks its key up and acquires a permit. */
  lemma Acquire(cfg: Config, prop: Property, s: State, key: string, permit: nat, l: Lookup)
    requires Kept(cfg, prop) && prop(s) && s.callers == map[] && permit !in s.permits
    requires LookupSemaphore(cfg, s.entries, Alive(s), s.nextId, key) == l
    requires |Out(s.permits, l.semaphore)| < cfg.permits
    ensures prop(State(l.entries, if l.created then s.nextId + 1 else s.nextId, map[],
                       s.permits[permit := Holder(key, l.semaphore)]))
  {
    var found := s.(entries := l.entries, nextId := if l.created then s.nextId + 1 else s.nextId,
                    callers := map[0 := Holder(key, l.semaphore)]);
    assert s.callers[0 := Holder(key, l.semaphore)] == found.callers;
    assert Step(cfg, s, Find(0, key), found);
    assert found.callers - {0} == map[];
    assert Step(cfg, found, TryAcquire(0, permit),
                found.(callers := map[], permits := s.permits[permit := Holder(key, l.semaphore)]));
  }

  lemma OneMoreOut(permits: map<nat, Holder>, p: nat, h: Holder, semaphore: Semaphore)
    requires p !in permits
    ensures |Out(permits[p := h], semaphore)| == |Out(permits, semaphore)| + if h.semaphore == semaphore then 1 else 0
  {
    if h.semaphore == semaphore {
      assert Out(permits[p := h], semaphore) == Out(permits, semaphore) + {p};
    } else {
      assert Out(permits[p := h], semaphore) == Out(permits, semaphore);
    }
  }

  /** With nothing else alive, a key that is not registered is. */
  lemma LookupRegisters(cfg: Config, entries: map<string, nat>, alive: set<nat>, newId: nat, key: string)
    requires cfg.maxEntries >= 1 && key !in entries && forall k | k in entries :: entries[k] !in alive
    ensures LookupSemaphore(cfg, entries, alive, newId, key) == Lookup(map[key := newId], Tracked(newId), true)
  {
    assert Living(entries, alive, key) == map[];
  }

  /** With the one entry taken, a key that is not registered goes to its stripe. */
  lemma LookupOverflows(cfg: Config, entries: map<string, nat>, alive: set<nat>, newId: nat, key: string)
    requires cfg.maxEntries <= |entries| && key !in entries && forall k | k in entries :: entries[k] in alive
    ensures LookupSemaphore(cfg, entries, alive, newId, key) == Lookup(entries, StripeOf(cfg, key), false)
  {
    assert Living(entries, alive, key) == entries;
  }

  // ----- The stripe, while another principal is tracked -----

  ghost predicate OnStripe(cfg: Config, key: string, other: string, s: State, n: nat) {
    && s == State(map[other := 0], 1, map[], s.permits)
    && 0 in s.permits && s.permits[0] == Holder(other, Tracked(0))
    && (forall p | p in s.permits && p != 0 :: p <= n && s.permits[p] == Holder(key, StripeOf(cfg, key)))
    && |Out(s.permits, StripeOf(cfg, key))| == n
  }

  lemma OtherIsTracked(cfg: Config, prop: Property, key: string, other: string) returns (s: State)
    requires Kept(cfg, prop) && cfg.maxEntries == 1 && cfg.permits >= 1 && key != other
    ensures prop(s) && OnStripe(cfg, key, other, s, 0)
  {
    s := State(map[other := 0], 1, map[], map[0 := Holder(other, Tracked(0))]);
    assert Out(map[], Tracked(0)) == {} && Out(s.permits, StripeOf(cfg, key)) == {};
    LookupRegisters(cfg, map[], Alive(EMPTY), 0, other);
    Acquire(cfg, prop, EMPTY, other, 0, Lookup(map[other := 0], Tracked(0), true));
    assert map[][0 := Holder(other, Tracked(0))] == s.permits;
  }

  lemma StepStripe(cfg: Config, prop: Property, key: string, other: string, s: State, n: nat) returns (s': State)
    requires Kept(cfg, prop) && cfg.maxEntries == 1 && key != other && n < cfg.permits
    requires prop(s) && OnStripe(cfg, key, other, s, n)
    ensures prop(s') && OnStripe(cfg, key, other, s', n + 1)
  {
    var h := Holder(key, StripeOf(cfg, key));
    s' := s.(permits := s.permits[n + 1 := h]);
    LookupOverflows(cfg, s.entries, Alive(s), 1, key);
    Acquire(cfg, prop, s, key, n + 1, Lookup(s.entries, StripeOf(cfg, key), false));
    OneMoreOut(s.permits, n + 1, h, h.semaphore);
  }

  lemma {:induction false} FillStripe(cfg: Config, prop: Property, key: string, other: string, n: nat)
    returns (s: State)
    requires Kept(cfg, prop) && cfg.maxEntries == 1 && cfg.permits >= 1 && key != other && n <= cfg.permits
    ensures prop(s) && OnStripe(cfg, key, other, s, n)
  {
    if n == 0 {
      s := OtherIsTracked(cfg, prop, key, other);
    } else {
      var before := FillStripe(cfg, prop, key, other, n - 1);
      s := StepStripe(cfg, prop, key, other, before, n - 1);
    }
  }

  // ----- The principal's own semaphore, after the other one has gone -----

  ghost predicate OnBoth(cfg: Config, key: string, permits: map<nat, Holder>, n: nat) {
    && (forall p | p in permits ::
          p <= cfg.permits + n && permits[p] in {Holder(key, StripeOf(cfg, key)), Holder(key, Tracked(1))})
    && |Out(permits, StripeOf(cfg, key))| == cfg.permits && |Out(permits, Tracked(1))| == n
  }

  lemma OtherIsGone(cfg: Config, prop: Property, key: string, other: string) returns (s: State)
    requires Kept(cfg, prop) && cfg.maxEntries == 1 && cfg.permits >= 1 && key != other
    ensures prop(s) && s == State(map[other := 0], 1, map[], s.permits) && OnBoth(cfg, key, s.permits, 0)
  {
    var full := FillStripe(cfg, prop, key, other, cfg.permits);
    s := full.(permits := full.permits - {0});
    assert Step(cfg, full, Drop(0), s);
    assert Out(s.permits, StripeOf(cfg, key)) == Out(full.permits, StripeOf(cfg, key));
    assert Out(s.permits, Tracked(1)) == {};
  }

  lemma OneMoreOwn(cfg: Config, key: string, permits: map<nat, Holder>, n: nat)
    requires OnBoth(cfg, key, permits, n)
    ensures cfg.permits + n + 1 !in permits
    ensures OnBoth(cfg, key, permits[cfg.permits + n + 1 := Holder(key, Tracked(1))], n + 1)
  {
    OneMoreOut(permits, cfg.permits + n + 1, Holder(key, Tracked(1)), Tracked(1));
    OneMoreOut(permits, cfg.permits + n + 1, Holder(key, Tracked(1)), StripeOf(cfg, key));
  }

  lemma OwnIsTracked(cfg: Config, prop: Property, key: string, other: string) returns (s': State)
    requires Kept(cfg, prop) && cfg.maxEntries == 1 && cfg.permits >= 1 && key != other
    ensures prop(s') && s' == State(map[key := 1], 2, map[], s'.permits) && OnBoth(cfg, key, s'.permits, 1)
  {
    var s := OtherIsGone(cfg, prop, key, other);
    OneMoreOwn(cfg, key, s.permits, 0);
    LookupRegisters(cfg, s.entries, Alive(s), 1, key);
    Acquire(cfg, prop, s, key, cfg.permits + 1, Lookup(map[key := 1], Tracked(1), true));
    s' := State(map[key := 1], 2, map[], s.permits[cfg.permits + 1 := Holder(key, Tracked(1))]);
  }

  lemma OwnAgain(cfg: Config, key: string, s: State, n: nat)
    requires s.entries == map[key := 1] && OnBoth(cfg, key, s.permits, n) && n >= 1
    ensures LookupSemaphore(cfg, s.entries, Alive(s), s.nextId, key) == Lookup(s.entries, Tracked(1), false)
  {
    assert Out(s.permits, Tracked(1)) != {};
    var p :| p in Out(s.permits, Tracked(1));
    assert s.permits[p].semaphore.id in Alive(s);
  }

  lemma StepOwn(cfg: Config, prop: Property, key: string, s: State, n: nat) returns (s': State)
    requires Kept(cfg, prop) && 1 <= n < cfg.permits
    requires prop(s) && s == State(map[key := 1], 2, map[], s.permits) && OnBoth(cfg, key, s.permits, n)
    ensures prop(s') && s' == State(map[key := 1], 2, map[], s'.permits) && OnBoth(cfg, key, s'.permits, n + 1)
  {
    OneMoreOwn(cfg, key, s.permits, n);
    OwnAgain(cfg, key, s, n);
    Acquire(cfg, prop, s, key, cfg.permits + n + 1, Lookup(s.entries, Tracked(1), false));
    s' := s.(permits := s.permits[cfg.permits + n + 1 := Holder(key, Tracked(1))]);
  }

  lemma {:induction false} FillOwn(cfg: Config, prop: Property, key: string, other: string, n: nat)
    returns (s: State)
    requires Kept(cfg, prop) && cfg.maxEntries == 1 && key != other && 1 <= n <= cfg.permits
    ensures prop(s) && s == State(map[key := 1], 2, map[], s.permits) && OnBoth(cfg, key, s.permits, n)
  {
    if n == 1 {
      s := OwnIsTracked(cfg, prop, key, other);
    } else {
      var before := FillOwn(cfg, prop, key, other, n - 1);
      s := StepOwn(cfg, prop, key, before, n - 1);
    }
  }

  /** The bound of `PrincipalIsBounded` is reached for every number of permits, every
      hash and every principal. */
  lemma TwiceIsReached(cfg: Config, key: string, other: string) returns (states: seq<State>, events: seq<Event>)
    requires cfg.maxEntries == 1 && cfg.permits >= 1 && key != other
    ensures Run(cfg, states, events) && |PermitsOf(states[|events|], key)| == 2 * cfg.permits
  {
    ReachedIsKept(cfg);
    var s := FillOwn(cfg, s => Reached(cfg, s), key, other, cfg.permits);
    states, events :| Run(cfg, states, events) && states[|events|] == s;
    var stripe, own := Out(s.permits, StripeOf(cfg, key)), Out(s.permits, Tracked(1));
    assert PermitsOf(s, key) == stripe + own && stripe !! own;
  }
}
