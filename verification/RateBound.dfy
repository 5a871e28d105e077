/**
The exact number of requests of one key that the rate limiter (`RateRegistry::check`
in crates/teodb-api/src/admission.rs) accepts in an interval of one window length: a
bound over all runs, and runs that reach it.
*/
module RateBound {
  import opened Wrappers
  import opened OverflowStripes
  import opened RateAdmission

  // The half-open interval that starts at `from`, and the largest limit.
  datatype Probe = Probe(from: nat, length: nat, max: nat)

  predicate Inside(p: Probe, now: nat) {
    p.from <= now < p.from + p.length
  }

  function Hit(p: Probe, ok: bool, now: nat): nat {
    if ok && Inside(p, now) then 1 else 0
  }

  /** All requests of the key that are accepted inside the interval. */
  function KeyHits(setup: Setup, reqs: seq<Request>, key: string, p: Probe): nat {
    if reqs == [] then 0
    else
      var n := |reqs| - 1;
      KeyHits(setup, reqs[..n], key, p)
      + if reqs[n].key == key then Hit(p, Accepted(setup, reqs, n), reqs[n].now) else 0
  }

  // ----- Hits by window -----

  // Hits of the key in its own windows and in those of its stripe, by whether the
  // window started before the interval or in it; and what of the stripe's current
  // window the key has taken.
  datatype Tally = Tally(ownOld: nat, ownNew: nat, sharedOld: nat, sharedNew: nat, taken: nat)

  function Total(y: Tally): nat {
    y.ownOld + y.ownNew + y.sharedOld + y.sharedNew
  }

  function Over(w: Window, length: nat, now: nat): bool {
    Since(now, w.started) >= length
  }

  /** After a request of the key in its own window, which is now `w`. */
  function CountOwn(p: Probe, y: Tally, w: Window, ok: bool, now: nat): Tally {
    if w.started < p.from then y.(ownOld := y.ownOld + Hit(p, ok, now))
    else y.(ownNew := y.ownNew + Hit(p, ok, now))
  }

  /** After a request in the stripe's window `w`, by the key or by another one. */
  function CountShared(p: Probe, y: Tally, w: Window, w': Window, ok: bool, now: nat, mine: bool): Tally {
    var kept := if Over(w, p.length, now) then 0 else y.taken;
    var y' := y.(taken := if mine && ok then kept + 1 else kept);
    if !mine then y'
    else if w'.started < p.from then y'.(sharedOld := y.sharedOld + Hit(p, ok, now))
    else y'.(sharedNew := y.sharedNew + Hit(p, ok, now))
  }

  ghost predicate OwnCounted(p: Probe, y: Tally, last: Option<Window>, now: nat) {
    && (last.None? ==> y.ownOld == y.ownNew == 0)
    && (now < p.from ==> y.ownOld == y.ownNew == 0)
    && y.ownOld < p.max && y.ownNew <= p.max
    && (last.Some? ==>
          var w := last.value;
          && 1 <= w.count <= p.max && w.started <= now
          && (w.started < p.from ==>
                y.ownOld < w.count && y.ownNew == 0 && (y.ownOld > 0 ==> p.from < w.started + p.length))
          && (Inside(p, w.started) ==> y.ownNew <= w.count))
  }

  ghost predicate SharedCounted(p: Probe, y: Tally, stripe: Window, now: nat) {
    && stripe.count <= p.max && stripe.started <= now && y.taken <= stripe.count
    && (now < p.from ==> y.sharedOld == y.sharedNew == 0)
    && y.sharedOld <= p.max && y.sharedNew <= p.max
    && (stripe.started < p.from ==> y.sharedOld <= y.taken && y.sharedNew == 0)
    && (Inside(p, stripe.started) ==> y.sharedNew <= stripe.count)
  }

  /** How the two kinds of windows are connected: a stripe window that started while the
      key had its own was started by another key, and the key comes to the stripe only
      when its own window is over. */
  ghost predicate Linked(p: Probe, y: Tally, last: Option<Window>, stripe: Window, now: nat) {
    && (last.Some? && last.value.started < stripe.started < last.value.started + p.length ==>
          y.taken < stripe.count)
    && (y.sharedOld > 0 && last.Some? && last.value.started < p.from ==> last.value.started + p.length <= now)
    && (y.ownOld > 0 && y.sharedOld > 0 ==> y.sharedOld < p.max)
  }

  ghost predicate Counted(p: Probe, y: Tally, last: Option<Window>, stripe: Window, now: nat) {
    OwnCounted(p, y, last, now) && SharedCounted(p, y, stripe, now) && Linked(p, y, last, stripe, now)
  }

  ghost predicate Ready(p: Probe, before: nat, limit: nat, now: nat) {
    before <= now && 1 <= limit <= p.max <= U32_MAX && p.length > 0
  }

  lemma OwnRequest(p: Probe, y: Tally, w: Window, stripe: Window, before: nat, limit: nat, now: nat)
    requires Counted(p, y, Some(w), stripe, before) && Ready(p, before, limit, now) && !Over(w, p.length, now)
    ensures var (w', ok) := Admit(w, limit, p.length, now);
            Counted(p, CountOwn(p, y, w', ok, now), Some(w'), stripe, now)
  {
  }

  lemma OwnStarts(p: Probe, y: Tally, last: Option<Window>, stripe: Window, before: nat, limit: nat, now: nat)
    requires Counted(p, y, last, stripe, before) && Ready(p, before, limit, now)
    requires last.Some? ==> last.value.started + p.length <= now
    ensures Counted(p, CountOwn(p, y, Window(now, 1), true, now), Some(Window(now, 1)), stripe, now)
  {
  }

  lemma SharedRequest(
      p: Probe, y: Tally, last: Option<Window>, stripe: Window, before: nat, limit: nat, now: nat, mine: bool)
    requires Counted(p, y, last, stripe, before) && Ready(p, before, limit, now)
    requires mine && last.Some? ==> last.value.started + p.length <= now
    ensures var (w', ok) := Admit(stripe, limit, p.length, now);
            Counted(p, CountShared(p, y, stripe, w', ok, now, mine), last, w', now)
  {
  }

  lemma TimePasses(p: Probe, y: Tally, last: Option<Window>, stripe: Window, before: nat, now: nat)
    requires Counted(p, y, last, stripe, before) && before <= now
    ensures Counted(p, y, last, stripe, now)
  {
  }

  /** The most a key can get: an initial stripe window, its successor and a window of its
      own; or, with limits above 2, two windows of its own and two of its stripe, each of
      the older ones less the request that started it. */
  function Best(max: nat): nat {
    if max <= 2 then 3 * max else 4 * max - 2
  }

  lemma CountedAtMostBest(p: Probe, y: Tally, last: Option<Window>, stripe: Window, now: nat)
    requires Counted(p, y, last, stripe, now) && p.max >= 1
    ensures Total(y) <= Best(p.max)
  {
  }

  // ----- Whole runs -----

  function KeyTally(setup: Setup, reqs: seq<Request>, key: string, p: Probe): Tally {
    if reqs == [] then Tally(0, 0, 0, 0, 0)
    else
      var n := |reqs| - 1;
      var req, ok, i := reqs[n], Accepted(setup, reqs, n), Stripe(setup.hash, key);
      var y, before, after := KeyTally(setup, reqs[..n], key, p), After(setup, reqs[..n]), After(setup, reqs);
      if Route(setup, reqs, n).Tracked? then
        if req.key == key && key in after.windows then CountOwn(p, y, after.windows[key], ok, req.now) else y
      else if Stripe(setup.hash, req.key) == i then
        CountShared(p, y, before.overflow[i], after.overflow[i], ok, req.now, req.key == key)
      else y
  }

  lemma {:induction false} TallyIsHits(setup: Setup, reqs: seq<Request>, key: string, p: Probe)
    ensures Total(KeyTally(setup, reqs, key, p)) == KeyHits(setup, reqs, key, p)
  {
    if reqs != [] {
      TallyIsHits(setup, reqs[..|reqs| - 1], key, p);
    }
  }

  /** Before the last request of its own, the key's last window is over unless the key is
      still tracked. */
  lemma OverBefore(setup: Setup, reqs: seq<Request>, key: string, max: nat)
    requires Orderly(setup, reqs, max) && reqs != []
    ensures var n := |reqs| - 1;
            var last := LastWindow(setup, reqs[..n], key);
            var windows := Unexpired(After(setup, reqs[..n]).windows, setup.length, reqs[n].now);
            && (key in windows ==> last == Some(windows[key]) && !Over(windows[key], setup.length, reqs[n].now))
            && (key !in windows && last.Some? ==> last.value.started + setup.length <= reqs[n].now)
  {
    OrderlyPrefix(setup, reqs, max);
    GoneIsOver(setup, reqs[..|reqs| - 1], key, max);
  }

  /** What the last request does to the key's last window. */
  lemma {:induction false} LastAfter(setup: Setup, reqs: seq<Request>, key: string)
    requires reqs != []
    ensures var n := |reqs| - 1;
            if reqs[n].key == key && Route(setup, reqs, n).Tracked?
            then
              && key in After(setup, reqs).windows
              && LastWindow(setup, reqs, key) == Some(After(setup, reqs).windows[key])
            else LastWindow(setup, reqs, key) == LastWindow(setup, reqs[..n], key)
  {
    var n := |reqs| - 1;
    var windows := Unexpired(After(setup, reqs[..n]).windows, setup.length, reqs[n].now);
    if !(reqs[n].key == key && Route(setup, reqs, n).Tracked?) {
      assert key in After(setup, reqs).windows <==> key in windows;
      assert key in windows ==> After(setup, reqs).windows[key] == windows[key];
    }
  }

  lemma CountedNext(setup: Setup, reqs: seq<Request>, key: string, p: Probe)
    requires reqs != [] && Orderly(setup, reqs, p.max) && setup.length == p.length
    requires var prefix := reqs[..|reqs| - 1];
             Counted(p, KeyTally(setup, prefix, key, p), LastWindow(setup, prefix, key),
                     After(setup, prefix).overflow[Stripe(setup.hash, key)], LastNow(setup, prefix))
    ensures Counted(p, KeyTally(setup, reqs, key, p), LastWindow(setup, reqs, key),
                    After(setup, reqs).overflow[Stripe(setup.hash, key)], LastNow(setup, reqs))
  {
    var n := |reqs| - 1;
    var req, i := reqs[n], Stripe(setup.hash, key);
    var y, last := KeyTally(setup, reqs[..n], key, p), LastWindow(setup, reqs[..n], key);
    var stripe, before := After(setup, reqs[..n]).overflow[i], LastNow(setup, reqs[..n]);
    OrderlyPrefix(setup, reqs, p.max);
    OverBefore(setup, reqs, key, p.max);
    LastAfter(setup, reqs, key);
    if Route(setup, reqs, n).Tracked? && req.key == key {
      if key in Unexpired(After(setup, reqs[..n]).windows, setup.length, req.now) {
        OwnRequest(p, y, last.value, stripe, before, req.limit, req.now);
      } else {
        OwnStarts(p, y, last, stripe, before, req.limit, req.now);
      }
    } else if Route(setup, reqs, n).Overflowed? && Stripe(setup.hash, req.key) == i {
      SharedRequest(p, y, last, stripe, before, req.limit, req.now, req.key == key);
    } else {
      TimePasses(p, y, last, stripe, before, req.now);
    }
  }

  lemma {:induction false} RunIsCounted(setup: Setup, reqs: seq<Request>, key: string, p: Probe)
    requires Orderly(setup, reqs, p.max) && setup.length == p.length && p.max >= 1
    ensures Counted(p, KeyTally(setup, reqs, key, p), LastWindow(setup, reqs, key),
                    After(setup, reqs).overflow[Stripe(setup.hash, key)], LastNow(setup, reqs))
  {
    if reqs != [] {
      OrderlyPrefix(setup, reqs, p.max);
      RunIsCounted(setup, reqs[..|reqs| - 1], key, p);
      CountedNext(setup, reqs, key, p);
    }
  }

  /** With time never running backwards and limits from 1 to `max`, no interval of one
      window length accepts more than `Best(max)` requests of a key. */
  lemma {:induction false} AtMostBest(setup: Setup, reqs: seq<Request>, key: string, from: nat, max: nat)
    requires Orderly(setup, reqs, max) && max >= 1
    ensures KeyHits(setup, reqs, key, Probe(from, setup.length, max)) <= Best(max)
  {
    var p := Probe(from, setup.length, max);
    RunIsCounted(setup, reqs, key, p);
    TallyIsHits(setup, reqs, key, p);
    CountedAtMostBest(p, KeyTally(setup, reqs, key, p), LastWindow(setup, reqs, key),
                      After(setup, reqs).overflow[Stripe(setup.hash, key)], LastNow(setup, reqs));
  }
}
