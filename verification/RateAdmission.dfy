/**
The fixed-window rate limiter (`RateRegistry::check` and `check_window` in
crates/teodb-api/src/admission.rs).
*/
module RateAdmission {
  import opened Wrappers
  import opened Sizes
  import opened OverflowStripes

  const U32_MAX: nat := 0xFFFF_FFFF

  datatype Window = Window(started: nat, count: nat)

  /** `Instant::duration_since` saturates at zero. */
  function Since(now: nat, then_: nat): nat {
    if now >= then_ then now - then_ else 0
  }

  // ----- One window -----

  /** `check_window`: the window after a request, and whether it is accepted. */
  function Admit(w: Window, limit: nat, length: nat, now: nat): (Window, bool) {
    var current := if Since(now, w.started) >= length then Window(now, 0) else w;
    if current.count >= limit then (current, false)
    else (current.(count := if current.count < U32_MAX then current.count + 1 else U32_MAX), true)
  }

  function RetryAfter(w: Window, length: nat, now: nat): nat {
    if length >= Since(now, w.started) then length - Since(now, w.started) else 0
  }

  /** The counter stays within u32, and a clock that runs behind the window's start does
      not end the window. */
  lemma AdmitIsSafe(w: Window, limit: nat, length: nat, now: nat)
    requires w.count <= U32_MAX
    ensures Admit(w, limit, length, now).0.count <= U32_MAX
    ensures now <= w.started && length > 0 ==> Admit(w, limit, length, now).0.started == w.started
  {
  }

  // ----- The registry -----

  datatype Request = Request(key: string, limit: nat, now: nat)

  datatype Registry = Registry(windows: map<string, Window>, overflow: seq<Window>)

  datatype Path = Tracked | Overflowed

  function Unexpired(windows: map<string, Window>, length: nat, now: nat): map<string, Window> {
    map k | k in windows && Since(now, windows[k].started) < length :: windows[k]
  }

  predicate WellFormed(r: Registry) {
    |r.overflow| == OVERFLOW_STRIPES
  }

  function PathOf(r: Registry, maxKeys: nat, length: nat, req: Request): Path {
    var windows := Unexpired(r.windows, length, req.now);
    if req.key in windows || |windows| < maxKeys then Tracked else Overflowed
  }

  function Check(r: Registry, maxKeys: nat, length: nat, hash: Hash, req: Request): (result: (Registry, bool))
    requires WellFormed(r)
    ensures WellFormed(result.0)
  {
    var windows := Unexpired(r.windows, length, req.now);
    if req.key in windows then
      var (w, ok) := Admit(windows[req.key], req.limit, length, req.now);
      (r.(windows := windows[req.key := w]), ok)
    else if |windows| < maxKeys then
      (r.(windows := windows[req.key := Window(req.now, 1)]), true)
    else
      var i := Stripe(hash, req.key);
      var (w, ok) := Admit(r.overflow[i], req.limit, length, req.now);
      (Registry(windows, r.overflow[i := w]), ok)
  }

  /** The window that decided about the request, after it. */
  function Consulted(r: Registry, maxKeys: nat, length: nat, hash: Hash, req: Request): Window
    requires WellFormed(r)
  {
    var after := Check(r, maxKeys, length, hash, req).0;
    if PathOf(r, maxKeys, length, req).Tracked? then after.windows[req.key] else after.overflow[Stripe(hash, req.key)]
  }

  class RateRegistry {
    const maxKeys: nat
    const length: nat
    const hash: Hash
    var windows: map<string, Window>
    var overflow: seq<Window>

    constructor (maxKeys: nat, length: nat, hash: Hash, now: nat)
      ensures this.maxKeys == maxKeys && this.length == length && this.hash == hash
      ensures Value() == Fresh(now)
    {
      this.maxKeys := maxKeys;
      this.length := length;
      this.hash := hash;
      windows := map[];
      overflow := seq(OVERFLOW_STRIPES, i => Window(now, 0));
    }

    function Value(): Registry
      reads this
    {
      Registry(windows, overflow)
    }

    /** A rejected request is told how long its window still runs. */
    method TryAdmit(key: string, limit: nat, now: nat) returns (retryAfter: Option<nat>)
      requires WellFormed(Value())
      modifies this
      ensures WellFormed(Value())
      ensures Value() == Check(old(Value()), maxKeys, length, hash, Request(key, limit, now)).0
      ensures retryAfter.None? <==> Check(old(Value()), maxKeys, length, hash, Request(key, limit, now)).1
      ensures retryAfter.Some? ==>
                retryAfter.value
                == RetryAfter(Consulted(old(Value()), maxKeys, length, hash, Request(key, limit, now)), length, now)
    {
      windows := map k | k in windows && Since(now, windows[k].started) < length :: windows[k];
      if key in windows {
        var (w, ok) := Admit(windows[key], limit, length, now);
        windows := windows[key := w];
        return if ok then None else Some(RetryAfter(w, length, now));
      }
      if |windows| < maxKeys {
        windows := windows[key := Window(now, 1)];
        return None;
      }
      var stripe := Stripe(hash, key);
      var (w, ok) := Admit(overflow[stripe], limit, length, now);
      overflow := overflow[stripe := w];
      return if ok then None else Some(RetryAfter(w, length, now));
    }
  }

  function Fresh(now: nat): Registry {
    Registry(map[], seq(OVERFLOW_STRIPES, i => Window(now, 0)))
  }

  // ----- Runs -----

  datatype Setup = Setup(maxKeys: nat, length: nat, hash: Hash, start: nat)

  function After(setup: Setup, reqs: seq<Request>): (r: Registry)
    ensures WellFormed(r)
  {
    if reqs == [] then Fresh(setup.start)
    else
      Check(After(setup, reqs[..|reqs| - 1]), setup.maxKeys, setup.length, setup.hash, reqs[|reqs| - 1]).0
  }

  predicate Accepted(setup: Setup, reqs: seq<Request>, i: nat)
    requires i < |reqs|
  {
    Check(After(setup, reqs[..i]), setup.maxKeys, setup.length, setup.hash, reqs[i]).1
  }

  function Route(setup: Setup, reqs: seq<Request>, i: nat): Path
    requires i < |reqs|
  {
    PathOf(After(setup, reqs[..i]), setup.maxKeys, setup.length, reqs[i])
  }

  /** Time does not run backwards, and every limit is between 1 and `max`. */
  ghost predicate Orderly(setup: Setup, reqs: seq<Request>, max: nat) {
    && (forall i | 0 <= i < |reqs| :: setup.start <= reqs[i].now && 1 <= reqs[i].limit <= max)
    && (forall i, j | 0 <= i < j < |reqs| :: reqs[i].now <= reqs[j].now)
    && max <= U32_MAX && setup.length > 0
  }

  /** The tracked map never holds more than the allowed number of keys. */
  lemma {:induction false} TrackedIsBounded(setup: Setup, reqs: seq<Request>)
    ensures |After(setup, reqs).windows| <= setup.maxKeys
  {
    if reqs != [] {
      var before := After(setup, reqs[..|reqs| - 1]);
      var req := reqs[|reqs| - 1];
      TrackedIsBounded(setup, reqs[..|reqs| - 1]);
      var windows := Unexpired(before.windows, setup.length, req.now);
      FewerKeys(windows, before.windows);
      if req.key in windows {
        SameSize(windows, req.key, Admit(windows[req.key], req.limit, setup.length, req.now).0);
      }
    }
  }

  lemma SameSize(a: map<string, Window>, key: string, w: Window)
    requires key in a
    ensures |a[key := w]| == |a|
  {
    assert a[key := w].Keys == a.Keys;
    assert |a[key := w]| == |a[key := w].Keys| && |a| == |a.Keys|;
  }

  // ----- The last window of a key -----

  function LastNow(setup: Setup, reqs: seq<Request>): nat {
    if reqs == [] then setup.start else reqs[|reqs| - 1].now
  }

  lemma OrderlyPrefix(setup: Setup, reqs: seq<Request>, max: nat)
    requires Orderly(setup, reqs, max) && reqs != []
    ensures Orderly(setup, reqs[..|reqs| - 1], max)
    ensures LastNow(setup, reqs[..|reqs| - 1]) <= reqs[|reqs| - 1].now
  {
    var n := |reqs| - 1;
    forall i | 0 <= i < n
      ensures reqs[..n][i] == reqs[i]
    {
    }
  }

  /** The last window the key has had. */
  function LastWindow(setup: Setup, reqs: seq<Request>, key: string): Option<Window> {
    if key in After(setup, reqs).windows then Some(After(setup, reqs).windows[key])
    else if reqs == [] then None
    else LastWindow(setup, reqs[..|reqs| - 1], key)
  }

  /** A key without a window never had one, or its last one is over. */
  ghost predicate OverIfGone(setup: Setup, reqs: seq<Request>, key: string, last: Option<Window>) {
    last.Some? ==>
      && last.value.started <= LastNow(setup, reqs)
      && (key !in After(setup, reqs).windows ==> last.value.started + setup.length <= LastNow(setup, reqs))
  }

  lemma {:induction false} GoneIsOver(setup: Setup, reqs: seq<Request>, key: string, max: nat)
    requires Orderly(setup, reqs, max)
    ensures OverIfGone(setup, reqs, key, LastWindow(setup, reqs, key))
  {
    if reqs != [] {
      OrderlyPrefix(setup, reqs, max);
      GoneIsOver(setup, reqs[..|reqs| - 1], key, max);
    }
  }

  // ----- How long to wait -----

  /** A rejected request that comes back with the same limit, nobody else having asked
      in between, is accepted once the told delay is over; a request with a window of
      its own is rejected before that. */
  lemma RetryAfterIsExact(r: Registry, maxKeys: nat, length: nat, hash: Hash, req: Request, delay: nat)
    requires WellFormed(r) && |r.windows| <= maxKeys && length > 0 && req.limit >= 1
    requires !Check(r, maxKeys, length, hash, req).1 && Consulted(r, maxKeys, length, hash, req).started <= req.now
    ensures var after := Check(r, maxKeys, length, hash, req).0;
            var told := RetryAfter(Consulted(r, maxKeys, length, hash, req), length, req.now);
            var retried := Check(after, maxKeys, length, hash, req.(now := req.now + delay)).1;
            && (delay >= told ==> retried)
            && (delay < told && PathOf(r, maxKeys, length, req).Tracked? ==> !retried)
  {
    var windows := Unexpired(r.windows, length, req.now);
    var after := Check(r, maxKeys, length, hash, req).0;
    var later := Unexpired(after.windows, length, req.now + delay);
    FewerKeys(windows, r.windows);
    if PathOf(r, maxKeys, length, req).Tracked? {
      SameSize(windows, req.key, after.windows[req.key]);
      if req.key !in later {
        FewerKeys(later, after.windows - {req.key});
        assert (after.windows - {req.key}).Keys == after.windows.Keys - {req.key};
        assert |after.windows - {req.key}| == |(after.windows - {req.key}).Keys|;
        assert |after.windows| == |after.windows.Keys|;
      }
    }
  }
}
