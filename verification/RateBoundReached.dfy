/**
Runs of the rate limiter in which a key gets exactly `Best(max)` requests into one
interval, for every limit. All keys share one stripe and a window is ten ticks long.
*/
module RateBoundReached {
  import opened RateAdmission
  import opened RateBound

  type Windows = map<string, Window>

  const LENGTH: nat := 10
  const KEY := "k"

  function OneStripe(maxKeys: nat): Setup {
    Setup(maxKeys, LENGTH, _ => 0, 0)
  }

  // The part of the registry that matters: the tracked windows and the one stripe.
  datatype Small = Small(windows: Windows, stripe: Window)

  function SmallCheck(s: Small, maxKeys: nat, req: Request): (Small, bool) {
    var windows := Unexpired(s.windows, LENGTH, req.now);
    if req.key in windows then
      var (w, ok) := Admit(windows[req.key], req.limit, LENGTH, req.now);
      (s.(windows := windows[req.key := w]), ok)
    else if |windows| < maxKeys then (s.(windows := windows[req.key := Window(req.now, 1)]), true)
    else
      var (w, ok) := Admit(s.stripe, req.limit, LENGTH, req.now);
      (Small(windows, w), ok)
  }

  // Where a run stands: the registry, the time of the last request and how many
  // requests of the key were accepted inside the interval.
  datatype Point = Point(s: Small, now: nat, hits: nat)

  ghost predicate Matches(r: Registry, s: Small)
    requires WellFormed(r)
  {
    r.windows == s.windows && r.overflow[0] == s.stripe
  }

  ghost predicate InTime(maxKeys: nat, max: nat, reqs: seq<Request>, now: nat) {
    Orderly(OneStripe(maxKeys), reqs, max) && forall i | 0 <= i < |reqs| :: reqs[i].now <= now
  }

  ghost predicate Leads(maxKeys: nat, p: Probe, reqs: seq<Request>, at: Point) {
    && InTime(maxKeys, p.max, reqs, at.now)
    && Matches(After(OneStripe(maxKeys), reqs), at.s)
    && KeyHits(OneStripe(maxKeys), reqs, KEY, p) == at.hits
  }

  ghost predicate Reached(maxKeys: nat, p: Probe, at: Point) {
    exists reqs :: Leads(maxKeys, p, reqs, at)
  }

  lemma StartIsReached(maxKeys: nat, p: Probe)
    requires p.max <= U32_MAX
    ensures Reached(maxKeys, p, Point(Small(map[], Window(0, 0)), 0, 0))
  {
    assert Leads(maxKeys, p, [], Point(Small(map[], Window(0, 0)), 0, 0));
  }

  lemma InTimeOn(maxKeys: nat, max: nat, reqs: seq<Request>, now: nat, req: Request)
    requires InTime(maxKeys, max, reqs, now) && now <= req.now && 1 <= req.limit <= max
    ensures InTime(maxKeys, max, reqs + [req], req.now)
  {
  }

  lemma CheckIsSmall(maxKeys: nat, r: Registry, s: Small, req: Request)
    requires WellFormed(r) && Matches(r, s)
    ensures var (r', ok) := Check(r, maxKeys, LENGTH, OneStripe(maxKeys).hash, req);
            Matches(r', SmallCheck(s, maxKeys, req).0) && ok == SmallCheck(s, maxKeys, req).1
  {
  }

  lemma LeadsOn(maxKeys: nat, p: Probe, reqs: seq<Request>, at: Point, req: Request, s': Small)
    requires Leads(maxKeys, p, reqs, at) && at.now <= req.now && 1 <= req.limit <= p.max
    requires SmallCheck(at.s, maxKeys, req) == (s', true)
    ensures Leads(maxKeys, p, reqs + [req],
                  Point(s', req.now, at.hits + if req.key == KEY then Hit(p, true, req.now) else 0))
  {
    InTimeOn(maxKeys, p.max, reqs, at.now, req);
    assert (reqs + [req])[..|reqs|] == reqs && (reqs + [req])[|reqs|] == req;
    CheckIsSmall(maxKeys, After(OneStripe(maxKeys), reqs), at.s, req);
  }

  lemma ReachedOn(maxKeys: nat, p: Probe, at: Point, req: Request, s': Small)
    requires Reached(maxKeys, p, at) && at.now <= req.now && 1 <= req.limit <= p.max
    requires SmallCheck(at.s, maxKeys, req) == (s', true)
    ensures Reached(maxKeys, p,
                    Point(s', req.now, at.hits + if req.key == KEY then Hit(p, true, req.now) else 0))
  {
    var reqs :| Leads(maxKeys, p, reqs, at);
    LeadsOn(maxKeys, p, reqs, at, req, s');
  }

  lemma ReachedLater(maxKeys: nat, p: Probe, at: Point, now: nat)
    requires Reached(maxKeys, p, at) && at.now <= now
    ensures Reached(maxKeys, p, at.(now := now))
  {
    var reqs :| Leads(maxKeys, p, reqs, at);
    assert Leads(maxKeys, p, reqs, at.(now := now));
  }

  // ----- Properties of points that runs keep -----

  type Property = Point -> bool

  function Next(maxKeys: nat, p: Probe, at: Point, req: Request): Point {
    Point(SmallCheck(at.s, maxKeys, req).0, req.now, at.hits + if req.key == KEY then Hit(p, true, req.now) else 0)
  }

  ghost predicate Accepts(maxKeys: nat, p: Probe, at: Point, req: Request) {
    at.now <= req.now && 1 <= req.limit <= p.max && SmallCheck(at.s, maxKeys, req).1
  }

  ghost predicate KeptByRequests(maxKeys: nat, p: Probe, prop: Property) {
    forall at, req | prop(at) && Accepts(maxKeys, p, at, req) :: prop(Next(maxKeys, p, at, req))
  }

  ghost predicate KeptByTime(prop: Property) {
    forall at, now: nat | prop(at) && at.now <= now :: prop(at.(now := now))
  }

  ghost predicate Kept(maxKeys: nat, p: Probe, prop: Property) {
    prop(Point(Small(map[], Window(0, 0)), 0, 0)) && KeptByRequests(maxKeys, p, prop) && KeptByTime(prop)
  }

  lemma ReachedIsKept(maxKeys: nat, p: Probe)
    requires p.max <= U32_MAX
    ensures Kept(maxKeys, p, at => Reached(maxKeys, p, at))
  {
    StartIsReached(maxKeys, p);
    forall at, req | Reached(maxKeys, p, at) && Accepts(maxKeys, p, at, req)
      ensures Reached(maxKeys, p, Next(maxKeys, p, at, req))
    {
      ReachedOn(maxKeys, p, at, req, SmallCheck(at.s, maxKeys, req).0);
    }
    forall at, now: nat | Reached(maxKeys, p, at) && at.now <= now
      ensures Reached(maxKeys, p, at.(now := now))
    {
      ReachedLater(maxKeys, p, at, now);
    }
  }

  /** One more accepted request. */
  lemma Step(maxKeys: nat, p: Probe, prop: Property, at: Point, req: Request, s': Small)
    requires KeptByRequests(maxKeys, p, prop) && prop(at) && at.now <= req.now && 1 <= req.limit <= p.max
    requires SmallCheck(at.s, maxKeys, req) == (s', true)
    ensures prop(Point(s', req.now, at.hits + if req.key == KEY then Hit(p, true, req.now) else 0))
  {
    assert Accepts(maxKeys, p, at, req);
  }

  ghost predicate Clean(windows: Windows, now: nat) {
    Unexpired(windows, LENGTH, now) == windows
  }

  /** One more request in the key's own window. */
  lemma OwnAgain(maxKeys: nat, others: Windows, w: Window, stripe: Window, limit: nat, now: nat)
    requires Clean(others, now) && KEY !in others && !Over(w, LENGTH, now) && w.count < limit <= U32_MAX
    ensures SmallCheck(Small(others[KEY := w], stripe), maxKeys, Request(KEY, limit, now))
            == (Small(others[KEY := w.(count := w.count + 1)], stripe), true)
  {
    assert Unexpired(others[KEY := w], LENGTH, now) == others[KEY := w];
    assert others[KEY := w][KEY := w.(count := w.count + 1)] == others[KEY := w.(count := w.count + 1)];
  }

  // The key in its own window, having been accepted `n` times in it since some point.
  function Own(others: Windows, w: Window, stripe: Window, now: nat, hits: nat, n: nat): Point {
    Point(Small(others[KEY := Window(w.started, w.count + n)], stripe), now, hits + n)
  }

  lemma StepOwn(
      maxKeys: nat, p: Probe, prop: Property, others: Windows, w: Window, stripe: Window, now: nat, hits: nat, n: nat)
    requires KeptByRequests(maxKeys, p, prop) && prop(Own(others, w, stripe, now, hits, n))
    requires Inside(p, now) && Clean(others, now) && KEY !in others && !Over(w, LENGTH, now)
    requires w.count + n < p.max <= U32_MAX
    ensures prop(Own(others, w, stripe, now, hits, n + 1))
  {
    OwnAgain(maxKeys, others, Window(w.started, w.count + n), stripe, p.max, now);
    Step(maxKeys, p, prop, Own(others, w, stripe, now, hits, n), Request(KEY, p.max, now),
         Own(others, w, stripe, now, hits, n + 1).s);
  }

  /** The key fills its own window. */
  lemma {:induction false} FillOwn(
      maxKeys: nat, p: Probe, prop: Property, others: Windows, w: Window, stripe: Window, now: nat, hits: nat, n: nat)
    requires KeptByRequests(maxKeys, p, prop) && prop(Own(others, w, stripe, now, hits, 0))
    requires Inside(p, now) && Clean(others, now) && KEY !in others && !Over(w, LENGTH, now)
    requires w.count + n <= p.max <= U32_MAX
    ensures prop(Own(others, w, stripe, now, hits, n))
  {
    if n > 0 {
      FillOwn(maxKeys, p, prop, others, w, stripe, now, hits, n - 1);
      StepOwn(maxKeys, p, prop, others, w, stripe, now, hits, n - 1);
    }
  }

  // The same in the stripe's window.
  function Shared(windows: Windows, w: Window, now: nat, hits: nat, n: nat): Point {
    Point(Small(windows, Window(w.started, w.count + n)), now, hits + n)
  }

  lemma StepStripe(maxKeys: nat, p: Probe, prop: Property, windows: Windows, w: Window, now: nat, hits: nat, n: nat)
    requires KeptByRequests(maxKeys, p, prop) && prop(Shared(windows, w, now, hits, n))
    requires Inside(p, now) && Clean(windows, now) && KEY !in windows && |windows| >= maxKeys
    requires !Over(w, LENGTH, now) && w.count + n < p.max <= U32_MAX
    ensures prop(Shared(windows, w, now, hits, n + 1))
  {
    Step(maxKeys, p, prop, Shared(windows, w, now, hits, n), Request(KEY, p.max, now),
         Shared(windows, w, now, hits, n + 1).s);
  }

  /** The key fills the stripe's window while the registry is full. */
  lemma {:induction false} FillStripe(
      maxKeys: nat, p: Probe, prop: Property, windows: Windows, w: Window, now: nat, hits: nat, n: nat)
    requires KeptByRequests(maxKeys, p, prop) && prop(Shared(windows, w, now, hits, 0))
    requires Inside(p, now) && Clean(windows, now) && KEY !in windows && |windows| >= maxKeys
    requires !Over(w, LENGTH, now) && w.count + n <= p.max <= U32_MAX
    ensures prop(Shared(windows, w, now, hits, n))
  {
    if n > 0 {
      FillStripe(maxKeys, p, prop, windows, w, now, hits, n - 1);
      StepStripe(maxKeys, p, prop, windows, w, now, hits, n - 1);
    }
  }

  /** A request of another key takes a free slot. */
  lemma TakeSlot(maxKeys: nat, p: Probe, prop: Property, at: Point, key: string, now: nat, left: Windows)
    requires KeptByRequests(maxKeys, p, prop) && prop(at) && at.now <= now && p.max >= 1 && key != KEY
    requires Unexpired(at.s.windows, LENGTH, now) == left && key !in left && |left| < maxKeys
    ensures prop(Point(Small(left[key := Window(now, 1)], at.s.stripe), now, at.hits))
  {
    Step(maxKeys, p, prop, at, Request(key, p.max, now), Small(left[key := Window(now, 1)], at.s.stripe));
  }

  /** The key takes a free slot and fills its window. */
  lemma OwnBurst(maxKeys: nat, p: Probe, prop: Property, at: Point, now: nat, left: Windows)
    requires KeptByRequests(maxKeys, p, prop) && prop(at) && at.now <= now && Inside(p, now) && 1 <= p.max <= U32_MAX
    requires Unexpired(at.s.windows, LENGTH, now) == left && KEY !in left && |left| < maxKeys
    ensures prop(Point(Small(left[KEY := Window(now, p.max)], at.s.stripe), now, at.hits + p.max))
  {
    var w := Window(now, 1);
    assert Clean(left, now);
    Step(maxKeys, p, prop, at, Request(KEY, p.max, now), Small(left[KEY := w], at.s.stripe));
    assert Own(left, w, at.s.stripe, now, at.hits + 1, 0)
        == Point(Small(left[KEY := w], at.s.stripe), now, at.hits + 1);
    FillOwn(maxKeys, p, prop, left, w, at.s.stripe, now, at.hits + 1, p.max - 1);
    assert Own(left, w, at.s.stripe, now, at.hits + 1, p.max - 1)
        == Point(Small(left[KEY := Window(now, p.max)], at.s.stripe), now, at.hits + p.max);
  }

  /** The stripe's window is over: the key starts the next one and fills it. */
  lemma StripeBurst(maxKeys: nat, p: Probe, prop: Property, at: Point, now: nat)
    requires KeptByRequests(maxKeys, p, prop) && prop(at) && at.now <= now && Inside(p, now) && 1 <= p.max <= U32_MAX
    requires Clean(at.s.windows, now) && KEY !in at.s.windows && |at.s.windows| >= maxKeys
    requires Over(at.s.stripe, LENGTH, now)
    ensures prop(Point(Small(at.s.windows, Window(now, p.max)), now, at.hits + p.max))
  {
    var w := Window(now, 1);
    Step(maxKeys, p, prop, at, Request(KEY, p.max, now), Small(at.s.windows, w));
    assert Shared(at.s.windows, w, now, at.hits + 1, 0) == Point(Small(at.s.windows, w), now, at.hits + 1);
    FillStripe(maxKeys, p, prop, at.s.windows, w, now, at.hits + 1, p.max - 1);
    assert Shared(at.s.windows, w, now, at.hits + 1, p.max - 1)
        == Point(Small(at.s.windows, Window(now, p.max)), now, at.hits + p.max);
  }

  // ----- Three times the limit -----

  // Another key holds the only slot from tick 8 until tick 18, and the stripe's first
  // window ends at tick 10.
  const X_ONLY: Windows := map["x" := Window(8, 1)]

  lemma SlotsOfX()
    ensures Unexpired(map[], LENGTH, 8) == map[] && Clean(X_ONLY, 9) && Clean(X_ONLY, 10) && |X_ONLY| == 1
    ensures Unexpired(X_ONLY, LENGTH, 18) == map[] && KEY !in X_ONLY && "x" != KEY
  {
    assert Unexpired(X_ONLY, LENGTH, 9) == X_ONLY && Unexpired(X_ONLY, LENGTH, 10) == X_ONLY;
    assert KEY[0] != "x"[0];
  }

  lemma FirstStripe(p: Probe, prop: Property)
    requires Kept(1, p, prop)
    requires p.from == 9 && p.length == LENGTH && 1 <= p.max <= U32_MAX
    ensures prop(Point(Small(X_ONLY, Window(0, p.max)), 9, p.max))
  {
    SlotsOfX();
    TakeSlot(1, p, prop, Point(Small(map[], Window(0, 0)), 0, 0), "x", 8, map[]);
    assert map[]["x" := Window(8, 1)] == X_ONLY;
    assert prop(Point(Small(X_ONLY, Window(0, 0)), 8, 0).(now := 9));
    assert Shared(X_ONLY, Window(0, 0), 9, 0, 0) == Point(Small(X_ONLY, Window(0, 0)), 9, 0);
    FillStripe(1, p, prop, X_ONLY, Window(0, 0), 9, 0, p.max);
    assert Shared(X_ONLY, Window(0, 0), 9, 0, p.max) == Point(Small(X_ONLY, Window(0, p.max)), 9, p.max);
  }

  lemma ThreeTimes(p: Probe, prop: Property)
    requires Kept(1, p, prop)
    requires p.from == 9 && p.length == LENGTH && 1 <= p.max <= U32_MAX
    ensures prop(Point(Small(map[][KEY := Window(18, p.max)], Window(10, p.max)), 18, 3 * p.max))
  {
    SlotsOfX();
    FirstStripe(p, prop);
    StripeBurst(1, p, prop, Point(Small(X_ONLY, Window(0, p.max)), 9, p.max), 10);
    OwnBurst(1, p, prop, Point(Small(X_ONLY, Window(10, p.max)), 10, 2 * p.max), 18, map[]);
  }

  // ----- Four times the limit, less two -----

  // Two slots. The key's first window starts before the interval, with one request.
  const H_ONLY: Windows := map["h" := Window(6, 1)]
  const H_AND_KEY: Windows := map["h" := Window(6, 1), KEY := Window(10, 1)]
  const G_ONLY: Windows := map["g" := Window(16, 1)]
  const G_AND_V: Windows := map["g" := Window(16, 1), "v" := Window(20, 1)]
  const V_ONLY: Windows := map["v" := Window(20, 1)]

  lemma Names()
    ensures "h" != KEY && "g" != KEY && "v" != KEY && "z" != KEY && "g" != "v" && "z" != "h"
  {
    assert KEY[0] != "h"[0] && KEY[0] != "g"[0] && KEY[0] != "v"[0] && KEY[0] != "z"[0];
    assert "g"[0] != "v"[0] && "z"[0] != "h"[0];
  }

  lemma TwoSlots(a: string, b: string, u: Window, w: Window)
    requires a != b
    ensures |map[a := u, b := w]| == 2
  {
    assert map[a := u, b := w].Keys == {a, b};
  }

  lemma SlotsBefore()
    ensures Unexpired(map[], LENGTH, 6) == map[] && map[]["h" := Window(6, 1)] == H_ONLY
    ensures Unexpired(H_ONLY, LENGTH, 10) == H_ONLY && H_ONLY[KEY := Window(10, 1)] == H_AND_KEY
    ensures Unexpired(H_AND_KEY, LENGTH, 12) == H_AND_KEY && |H_AND_KEY| == 2
    ensures Unexpired(H_AND_KEY, LENGTH, 16) == map[KEY := Window(10, 1)]
  {
    Names();
    TwoSlots("h", KEY, Window(6, 1), Window(10, 1));
  }

  lemma SlotsInside(max: nat)
    ensures map[KEY := Window(10, 1)]["g" := Window(16, 1)] == G_ONLY[KEY := Window(10, 1)]
    ensures Unexpired(G_ONLY, LENGTH, 19) == G_ONLY
    ensures Unexpired(G_ONLY[KEY := Window(10, max)], LENGTH, 20) == G_ONLY
    ensures G_ONLY["v" := Window(20, 1)] == G_AND_V && |G_AND_V| == 2
  {
    Names();
    TwoSlots("g", "v", Window(16, 1), Window(20, 1));
  }

  lemma SlotsAfter()
    ensures Unexpired(G_AND_V, LENGTH, 20) == G_AND_V && Unexpired(G_AND_V, LENGTH, 22) == G_AND_V
    ensures Unexpired(G_AND_V, LENGTH, 26) == V_ONLY && |G_AND_V| == 2
  {
    Names();
    TwoSlots("g", "v", Window(16, 1), Window(20, 1));
  }

  /** A request of another key in the stripe's window, which is over. */
  lemma OtherInStripe(maxKeys: nat, p: Probe, prop: Property, at: Point, key: string, now: nat)
    requires KeptByRequests(maxKeys, p, prop) && prop(at) && at.now <= now && p.max >= 1 && key != KEY
    requires Clean(at.s.windows, now) && key !in at.s.windows && |at.s.windows| >= maxKeys
    requires Over(at.s.stripe, LENGTH, now)
    ensures prop(Point(Small(at.s.windows, Window(now, 1)), now, at.hits))
  {
    Step(maxKeys, p, prop, at, Request(key, p.max, now), Small(at.s.windows, Window(now, 1)));
  }

  lemma BeforeInterval(p: Probe, prop: Property)
    requires Kept(2, p, prop)
    requires p.from == 19 && p.length == LENGTH && 2 <= p.max <= U32_MAX
    ensures prop(Point(Small(H_AND_KEY, Window(12, 1)), 12, 0))
  {
    Names();
    SlotsBefore();
    TakeSlot(2, p, prop, Point(Small(map[], Window(0, 0)), 0, 0), "h", 6, map[]);
    Step(2, p, prop, Point(Small(H_ONLY, Window(0, 0)), 6, 0), Request(KEY, p.max, 10), Small(H_AND_KEY, Window(0, 0)));
    OtherInStripe(2, p, prop, Point(Small(H_AND_KEY, Window(0, 0)), 10, 0), "z", 12);
  }

  lemma AtInterval(p: Probe, prop: Property)
    requires Kept(2, p, prop)
    requires p.from == 19 && p.length == LENGTH && 2 <= p.max <= U32_MAX
    ensures prop(Point(Small(G_ONLY[KEY := Window(10, 1)], Window(12, 1)), 19, 0))
  {
    Names();
    BeforeInterval(p, prop);
    SlotsBefore();
    TakeSlot(2, p, prop, Point(Small(H_AND_KEY, Window(12, 1)), 12, 0), "g", 16, map[KEY := Window(10, 1)]);
    SlotsInside(p.max);
    assert prop(Point(Small(G_ONLY[KEY := Window(10, 1)], Window(12, 1)), 16, 0).(now := 19));
  }

  /** The rest of the key's first window, inside the interval. */
  lemma OldOwn(p: Probe, prop: Property)
    requires Kept(2, p, prop)
    requires p.from == 19 && p.length == LENGTH && 2 <= p.max <= U32_MAX
    ensures prop(Point(Small(G_ONLY[KEY := Window(10, p.max)], Window(12, 1)), 19, p.max - 1))
  {
    Names();
    AtInterval(p, prop);
    SlotsInside(p.max);
    FillOwn(2, p, prop, G_ONLY, Window(10, 1), Window(12, 1), 19, 0, p.max - 1);
    assert Own(G_ONLY, Window(10, 1), Window(12, 1), 19, 0, p.max - 1)
        == Point(Small(G_ONLY[KEY := Window(10, p.max)], Window(12, 1)), 19, p.max - 1);
  }

  /** The rest of the stripe's old window, after the key has lost its slot. */
  lemma OldStripe(p: Probe, prop: Property)
    requires Kept(2, p, prop)
    requires p.from == 19 && p.length == LENGTH && 2 <= p.max <= U32_MAX
    ensures prop(Point(Small(G_AND_V, Window(12, p.max)), 20, 2 * p.max - 2))
  {
    Names();
    OldOwn(p, prop);
    SlotsInside(p.max);
    TakeSlot(2, p, prop, Point(Small(G_ONLY[KEY := Window(10, p.max)], Window(12, 1)), 19, p.max - 1), "v", 20, G_ONLY);
    SlotsAfter();
    FillStripe(2, p, prop, G_AND_V, Window(12, 1), 20, p.max - 1, p.max - 1);
    assert Shared(G_AND_V, Window(12, 1), 20, p.max - 1, p.max - 1)
        == Point(Small(G_AND_V, Window(12, p.max)), 20, 2 * p.max - 2);
  }

  lemma FourTimes(p: Probe, prop: Property)
    requires Kept(2, p, prop)
    requires p.from == 19 && p.length == LENGTH && 2 <= p.max <= U32_MAX
    ensures prop(Point(Small(V_ONLY[KEY := Window(26, p.max)], Window(22, p.max)), 26, 4 * p.max - 2))
  {
    Names();
    OldStripe(p, prop);
    SlotsAfter();
    StripeBurst(2, p, prop, Point(Small(G_AND_V, Window(12, p.max)), 20, 2 * p.max - 2), 22);
    OwnBurst(2, p, prop, Point(Small(G_AND_V, Window(22, p.max)), 22, 3 * p.max - 2), 26, V_ONLY);
  }

  /** The bound of `AtMostBest` is the best possible for every limit. */
  lemma BestIsReached(max: nat) returns (setup: Setup, reqs: seq<Request>, from: nat)
    requires 1 <= max <= U32_MAX
    ensures Orderly(setup, reqs, max)
    ensures KeyHits(setup, reqs, KEY, Probe(from, setup.length, max)) == Best(max)
  {
    if max <= 2 {
      setup, from := OneStripe(1), 9;
      var p := Probe(9, LENGTH, max);
      ReachedIsKept(1, p);
      ThreeTimes(p, at => Reached(1, p, at));
      reqs :| Leads(1, p, reqs,
                    Point(Small(map[][KEY := Window(18, max)], Window(10, max)), 18, 3 * max));
    } else {
      setup, from := OneStripe(2), 19;
      var p := Probe(19, LENGTH, max);
      ReachedIsKept(2, p);
      FourTimes(p, at => Reached(2, p, at));
      reqs :| Leads(2, p, reqs,
                    Point(Small(V_ONLY[KEY := Window(26, max)], Window(22, max)), 26, 4 * max - 2));
    }
  }
}
