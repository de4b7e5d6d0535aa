/**
 The API's fixed-window limiters: what one key, and all actors together, can get through.
 Times are in one unit; which entry a full map gives up is the map's choice.
 */
module Limits {
  import opened Base

  type Time = int

  // ---- the API's fixed window ---------------------------------------------

  datatype Window = Window(start: Time, count: nat)

  /** A hit on a key's window: a spent window starts afresh first. */
  function Hit(w: Option<Window>, now: Time, length: nat): Window {
    if w.None? || now - w.value.start >= length then Window(now, 1)
    else w.value.(count := w.value.count + 1)
  }

  class RateLimiter {
    const window: nat
    const max: nat
    const cap: nat
    var hits: map<nat, Window>

    constructor (window: nat, max: nat, cap: nat)
      requires cap >= 1
      ensures this.window == window && this.max == max && this.cap == cap && hits == map[]
    {
      this.window, this.max, this.cap, hits := window, max, cap, map[];
    }

    /** Record a hit for `key`; `evicted` is the entry given up to make room. */
    method Allow(key: nat, now: Time) returns (ok: bool, evicted: Option<nat>)
      requires cap >= 1 && |hits| <= cap
      modifies this`hits
      ensures |hits| <= cap
      ensures evicted.Some? ==> evicted.value in old(hits) && evicted.value != key && |old(hits)| == cap
      ensures evicted.None? ==> key in old(hits) || |old(hits)| < cap
      ensures hits == AllowSpec(old(hits), Call(now, key, evicted), window)
      ensures ok == (hits[key].count <= max)
    {
      evicted := None;
      if |hits| >= cap && key !in hits {
        var victim :| victim in hits.Keys;
        evicted := Some(victim);
        RemoveOne(hits, victim);
        hits := hits - {victim};
      }
      var e := if key in hits then hits[key] else Window(now, 0);
      if now - e.start >= window {
        e := Window(now, 0);
      }
      e := e.(count := e.count + 1);
      PutOne(hits, key, e);
      hits := hits[key := e];
      ok := e.count <= max;
    }
  }

  function Lookup(hits: map<nat, Window>, key: nat): Option<Window> {
    if key in hits then Some(hits[key]) else None
  }

  /** How many of the times lie in [from, to). */
  function Count(times: seq<Time>, from: Time, to: Time): nat {
    if times == [] then 0
    else Count(times[..|times| - 1], from, to) + if from <= times[|times| - 1] < to then 1 else 0
  }

  lemma CountAppend(times: seq<Time>, t: Time, from: Time, to: Time)
    ensures Count(times + [t], from, to) == Count(times, from, to) + if from <= t < to then 1 else 0
  {
    assert (times + [t])[..|times|] == times;
  }

  lemma {:induction false} CountSplits(times: seq<Time>, from: Time, mid: Time, to: Time)
    requires from <= mid <= to
    ensures Count(times, from, to) == Count(times, from, mid) + Count(times, mid, to)
  {
    if times != [] {
      CountSplits(times[..|times| - 1], from, mid, to);
    }
  }

  lemma {:induction false} CountWidens(times: seq<Time>, from: Time, to: Time, from': Time, to': Time)
    requires from' <= from && to <= to'
    ensures Count(times, from, to) <= Count(times, from', to')
  {
    if times != [] {
      CountWidens(times[..|times| - 1], from, to, from', to');
    }
  }

  lemma {:induction false} CountNone(times: seq<Time>, from: Time, to: Time)
    requires forall t | t in times :: !(from <= t < to)
    ensures Count(times, from, to) == 0
  {
    if times != [] {
      var earlier := times[..|times| - 1];
      forall t | t in earlier ensures !(from <= t < to) {
        assert t in times;
      }
      CountNone(earlier, from, to);
      assert times[|times| - 1] in times;
    }
  }

  /** How many of the times lie in the half-open interval of `length` from `a` on. */
  function Within(times: seq<Time>, a: Time, length: nat): nat {
    Count(times, a, a + length)
  }

  /** One key that is never given up: its window and the times it was admitted. */
  datatype Key = Key(w: Option<Window>, admitted: seq<Time>)

  function HitKey(k: Key, now: Time, length: nat, max: nat): Key {
    var w := Hit(k.w, now, length);
    Key(Some(w), if w.count <= max then k.admitted + [now] else k.admitted)
  }

  function HitAll(k: Key, times: seq<Time>, length: nat, max: nat): Key
    decreases |times|
  {
    if times == [] then k else HitAll(HitKey(k, times[0], length, max), times[1..], length, max)
  }

  /** What a window admits after its first hit. */
  function Rest(max: nat): nat {
    if max == 0 then 0 else max - 1
  }

  /** The window started at `s`: it admitted `max` at most, its first hit among them,
      and the stretch of less than a window before it one fewer. */
  ghost predicate TwoWindows(times: seq<Time>, s: Time, length: nat, max: nat)
    requires length > 0
  {
    && (forall t | t in times :: t < s + length)
    && Count(times, s, s + length) <= max
    && Count(times, s + 1, s + length) <= Rest(max)
    && Count(times, s - length + 1, s) <= Rest(max)
  }

  ghost predicate Bounded(k: Key, length: nat, max: nat)
    requires length > 0
  {
    if k.w.None? then k.admitted == []
    else
      var Window(s, count) := k.w.value;
      && TwoWindows(k.admitted, s, length, max)
      && Count(k.admitted, s, s + length) <= count && Count(k.admitted, s + 1, s + length) < count
      && forall a: Time :: Within(k.admitted, a, length) <= max + Rest(max)
  }

  lemma TailIsEmpty(times: seq<Time>, from: Time, end: Time, to: Time)
    requires from <= end <= to && forall t | t in times :: t < end
    ensures Count(times, from, to) == Count(times, from, end)
  {
    CountSplits(times, from, end, to);
    CountNone(times, end, to);
  }

  lemma RecentInterval(times: seq<Time>, s: Time, length: nat, max: nat, a: Time)
    requires length > 0 && TwoWindows(times, s, length, max) && a > s - length
    ensures Within(times, a, length) <= max + Rest(max)
  {
    var end := if a + length < s + length then s + length else a + length;
    CountWidens(times, a, a + length, s - length + 1, end);
    TailIsEmpty(times, s - length + 1, s + length, end);
    CountSplits(times, s - length + 1, s, s + length);
  }

  lemma SameWindow(k: Key, now: Time, length: nat, max: nat)
    requires length > 0 && Bounded(k, length, max) && k.w.Some? && 0 <= now - k.w.value.start < length
    requires k.w.value.count + 1 <= max
    ensures var Window(s, count) := k.w.value;
            var times := k.admitted + [now];
            TwoWindows(times, s, length, max)
            && Count(times, s, s + length) <= count + 1 && Count(times, s + 1, s + length) < count + 1
  {
    var s := k.w.value.start;
    CountAppend(k.admitted, now, s, s + length);
    CountAppend(k.admitted, now, s + 1, s + length);
    CountAppend(k.admitted, now, s - length + 1, s);
  }

  lemma FreshWindow(k: Key, now: Time, length: nat, max: nat)
    requires length > 0 && Bounded(k, length, max)
    requires k.w.Some? ==> now - k.w.value.start >= length
    ensures TwoWindows(k.admitted, now, length, max) && Count(k.admitted, now, now + length) == 0
    ensures Count(k.admitted, now + 1, now + length) == 0
    ensures var times := k.admitted + [now];
            max >= 1 ==> TwoWindows(times, now, length, max)
                         && Count(times, now, now + length) == 1 && Count(times, now + 1, now + length) == 0
  {
    CountNone(k.admitted, now, now + length);
    CountNone(k.admitted, now + 1, now + length);
    if k.w.Some? {
      var s := k.w.value.start;
      CountWidens(k.admitted, now - length + 1, now, s + 1, now);
      TailIsEmpty(k.admitted, s + 1, s + length, now);
    }
    CountAppend(k.admitted, now, now, now + length);
    CountAppend(k.admitted, now, now + 1, now + length);
    CountAppend(k.admitted, now, now - length + 1, now);
  }

  lemma HitKeepsBound(k: Key, now: Time, length: nat, max: nat)
    requires length > 0 && Bounded(k, length, max)
    requires k.w.Some? ==> k.w.value.start <= now
    ensures Bounded(HitKey(k, now, length, max), length, max)
  {
    hide TwoWindows, Count;
    var k' := HitKey(k, now, length, max);
    var s := k'.w.value.start;
    if k.w.None? || now - k.w.value.start >= length {
      FreshWindow(k, now, length, max);
    } else if k'.w.value.count <= max {
      SameWindow(k, now, length, max);
    }
    assert TwoWindows(k'.admitted, s, length, max);
    forall a: Time ensures Within(k'.admitted, a, length) <= max + Rest(max) {
      if a > s - length {
        RecentInterval(k'.admitted, s, length, max, a);
      } else {
        CountAppend(k.admitted, now, a, a + length);
        if k.w.None? { CountNone(k.admitted, a, a + length); }
        assert Within(k.admitted, a, length) <= max + Rest(max);
      }
    }
  }

  lemma {:induction false} HitAllBounded(k: Key, times: seq<Time>, length: nat, max: nat)
    requires length > 0 && Bounded(k, length, max) && Sorted(times)
    requires k.w.Some? ==> forall t | t in times :: k.w.value.start <= t
    ensures Bounded(HitAll(k, times, length, max), length, max)
    decreases |times|
  {
    if times != [] {
      hide Bounded;
      assert times[0] in times;
      HitKeepsBound(k, times[0], length, max);
      assert forall t | t in times[1..] :: t in times;
      HitAllBounded(HitKey(k, times[0], length, max), times[1..], length, max);
    }
  }

  lemma KeyCeiling(times: seq<Time>, length: nat, max: nat, a: Time)
    requires length > 0 && Sorted(times)
    ensures Within(HitAll(Key(None, []), times, length, max).admitted, a, length) <= max + Rest(max)
  {
    HitAllBounded(Key(None, []), times, length, max);
    CountNone([], a, a + length);
  }

  function Repeat(t: Time, n: nat): (r: seq<Time>)
    ensures |r| == n
  {
    if n == 0 then [] else [t] + Repeat(t, n - 1)
  }

  lemma {:induction false} RepeatMore(t: Time, n: nat)
    ensures Repeat(t, n + 1) == Repeat(t, n) + [t]
  {
    if n > 0 {
      RepeatMore(t, n - 1);
    }
  }

  lemma {:induction false} CountRepeat(times: seq<Time>, t: Time, n: nat, from: Time, to: Time)
    ensures Count(times + Repeat(t, n), from, to) == Count(times, from, to) + if from <= t < to then n else 0
  {
    if n == 0 {
      assert times + [] == times;
    } else {
      CountRepeat(times, t, n - 1, from, to);
      CountAppend(times + Repeat(t, n - 1), t, from, to);
      RepeatMore(t, n - 1);
      Assoc(times, Repeat(t, n - 1), [t]);
    }
  }

  lemma NextHit(s: Time, count: nat, admitted: seq<Time>, t: Time, times: seq<Time>, rest: seq<Time>, length: nat, max: nat)
    requires times == [t] + rest && t - s < length && count + 1 <= max
    ensures HitAll(Key(Some(Window(s, count)), admitted), times, length, max)
            == HitAll(Key(Some(Window(s, count + 1)), admitted + [t]), rest, length, max)
  {
    assert times[0] == t && times[1..] == rest;
  }

  /** Hits at one instant of an open window, as long as it is not full. */
  lemma {:induction false} HitsAtOnce(s: Time, count: nat, admitted: seq<Time>, t: Time, n: nat, rest: seq<Time>,
                                      length: nat, max: nat)
    requires t - s < length && count + n <= max
    ensures HitAll(Key(Some(Window(s, count)), admitted), Repeat(t, n) + rest, length, max)
            == HitAll(Key(Some(Window(s, count + n)), admitted + Repeat(t, n)), rest, length, max)
    decreases n
  {
    if n == 0 {
      assert [] + rest == rest && admitted + [] == admitted;
    } else {
      hide HitAll;
      Assoc([t], Repeat(t, n - 1), rest);
      NextHit(s, count, admitted, t, Repeat(t, n) + rest, Repeat(t, n - 1) + rest, length, max);
      HitsAtOnce(s, count + 1, admitted + [t], t, n - 1, rest, length, max);
      Assoc(admitted, [t], Repeat(t, n - 1));
    }
  }

  /** One hit, then the rest of its window at its last instant, then a whole new window. */
  function Burst(length: nat, max: nat): seq<Time>
    requires length >= 1 && max >= 1
  {
    [0] + (Repeat(length - 1, max - 1) + ([length] + Repeat(length, max - 1)))
  }

  function BurstAdmitted(length: nat, max: nat): seq<Time>
    requires length >= 1 && max >= 1
  {
    [0] + Repeat(length - 1, max - 1) + [length] + Repeat(length, max - 1)
  }

  lemma BurstIsAdmitted(length: nat, max: nat)
    requires length >= 2 && max >= 1
    ensures HitAll(Key(None, []), Burst(length, max), length, max).admitted == BurstAdmitted(length, max)
  {
    var early, late := Repeat(length - 1, max - 1), [length] + Repeat(length, max - 1);
    var times, admitted := Burst(length, max), [0] + early;
    assert [] + [0] == [0];
    FirstHit(None, [], 0, times, early + late, length, max);
    HitsAtOnce(0, 1, [0], length - 1, max - 1, late, length, max);
    FirstHit(Some(Window(0, max)), admitted, length, late, Repeat(length, max - 1), length, max);
    assert Repeat(length, max - 1) + [] == Repeat(length, max - 1);
    HitsAtOnce(length, 1, admitted + [length], length, max - 1, [], length, max);
    NoHits(Some(Window(length, max)), BurstAdmitted(length, max), length, max);
  }

  lemma NoHits(w: Option<Window>, admitted: seq<Time>, length: nat, max: nat)
    ensures HitAll(Key(w, admitted), [], length, max).admitted == admitted
  {
  }

  /** A hit that opens a window. */
  lemma FirstHit(w: Option<Window>, admitted: seq<Time>, t: Time, times: seq<Time>, rest: seq<Time>, length: nat, max: nat)
    requires times == [t] + rest && max >= 1 && (w.Some? ==> t - w.value.start >= length)
    ensures HitAll(Key(w, admitted), times, length, max)
            == HitAll(Key(Some(Window(t, 1)), admitted + [t]), rest, length, max)
  {
    assert times[0] == t && times[1..] == rest;
  }

  /** The bound is reached, for every limit and every window of two units or more. */
  lemma CeilingIsReached(length: nat, max: nat)
    requires length >= 2 && max >= 1
    ensures Within(HitAll(Key(None, []), Burst(length, max), length, max).admitted, 1, length) == 2 * max - 1
  {
    BurstIsAdmitted(length, max);
    BurstCount(length, max);
    hide *;
    assert Within(BurstAdmitted(length, max), 1, length) == 2 * max - 1;
  }

  lemma BurstCount(length: nat, max: nat)
    requires length >= 2 && max >= 1
    ensures Within(BurstAdmitted(length, max), 1, length) == 2 * max - 1
  {
    hide Repeat, Count;
    var early, end := Repeat(length - 1, max - 1), 1 + length;
    assert Count([0], 1, end) == 0 by { CountNone([0], 1, end); }
    CountRepeat([0], length - 1, max - 1, 1, end);
    CountAppend([0] + early, length, 1, end);
    CountRepeat([0] + early + [length], length, max - 1, 1, end);
  }

  // ---- one key among many -------------------------------------------------

  /** A call, and the entry the map would give up to make room for a new key. */
  datatype Call = Call(time: Time, key: nat, victim: Option<nat>)

  function AllowSpec(hits: map<nat, Window>, c: Call, window: nat): map<nat, Window> {
    var kept := if c.victim.Some? then hits - {c.victim.value} else hits;
    kept[c.key := Hit(Lookup(hits, c.key), c.time, window)]
  }

  /** When `key` was let through, in a run of calls for any keys. */
  function AdmittedFor(hits: map<nat, Window>, calls: seq<Call>, key: nat, window: nat, max: nat): seq<Time>
    decreases |calls|
  {
    if calls == [] then []
    else
      var after := AllowSpec(hits, calls[0], window);
      (if calls[0].key == key && after[key].count <= max then [calls[0].time] else [])
      + AdmittedFor(after, calls[1..], key, window, max)
  }

  function TimesOf(calls: seq<Call>, key: nat): seq<Time> {
    if calls == [] then []
    else (if calls[0].key == key then [calls[0].time] else []) + TimesOf(calls[1..], key)
  }

  lemma {:induction false} FollowsOneKey(hits: map<nat, Window>, calls: seq<Call>, key: nat, window: nat, max: nat, k: Key)
    requires k.w == Lookup(hits, key)
    requires forall c | c in calls :: c.victim != Some(key)
    ensures HitAll(k, TimesOf(calls, key), window, max).admitted
            == k.admitted + AdmittedFor(hits, calls, key, window, max)
    decreases |calls|
  {
    if calls != [] {
      var c, after := calls[0], AllowSpec(hits, calls[0], window);
      assert c in calls;
      if c.key == key {
        var k' := HitKey(k, c.time, window, max);
        FollowsOneKey(after, calls[1..], key, window, max, k');
        assert TimesOf(calls, key)[1..] == TimesOf(calls[1..], key);
        Assoc(k.admitted, if after[key].count <= max then [c.time] else [], AdmittedFor(after, calls[1..], key, window, max));
        if after[key].count > max { assert k.admitted + [] == k.admitted; }
      } else {
        FollowsOneKey(after, calls[1..], key, window, max, k);
        assert [] + AdmittedFor(after, calls[1..], key, window, max) == AdmittedFor(after, calls[1..], key, window, max);
        assert [] + TimesOf(calls[1..], key) == TimesOf(calls[1..], key);
      }
    } else {
      assert k.admitted + [] == k.admitted;
    }
  }

  /** In any run of calls that never evicts `key`, it is let through at most
      2 * max - 1 times in any half-open interval of the window's length. */
  lemma ApiCeiling(calls: seq<Call>, key: nat, window: nat, max: nat, a: Time)
    requires window > 0 && Sorted(TimesOf(calls, key))
    requires forall c | c in calls :: c.victim != Some(key)
    ensures Within(AdmittedFor(map[], calls, key, window, max), a, window) <= max + Rest(max)
  {
    FollowsOneKey(map[], calls, key, window, max, Key(None, []));
    KeyCeiling(TimesOf(calls, key), window, max, a);
    var admitted := AdmittedFor(map[], calls, key, window, max);
    assert [] + admitted == admitted;
  }

  // ---- the two limiters of the API ----------------------------------------

  /** A request, and the entry the per-actor map would give up to admit it. */
  datatype Request = Request(time: Time, actor: nat, victim: Option<nat>)

  const ACTOR_MAX: nat := 100
  const GLOBAL_MAX: nat := 1000

  /** A request that was let through. */
  datatype Pass = Pass(time: Time, actor: nat)

  /** Both limiters' maps, and the requests let through. */
  datatype Gate = Gate(global: map<nat, Window>, actors: map<nat, Window>, admitted: seq<Pass>)

  /** `auth_middleware`: the global limiter under its one key, then the actor's, which
      a global refusal leaves untouched. */
  function Admit(g: Gate, r: Request, window: nat): Gate {
    var global := AllowSpec(g.global, Call(r.time, 0, None), window);
    if global[0].count > GLOBAL_MAX then g.(global := global)
    else
      var actors := AllowSpec(g.actors, Call(r.time, r.actor, r.victim), window);
      g.(global := global, actors := actors,
         admitted := if actors[r.actor].count <= ACTOR_MAX then g.admitted + [Pass(r.time, r.actor)] else g.admitted)
  }

  function AdmitAll(g: Gate, requests: seq<Request>, window: nat): Gate
    decreases |requests|
  {
    if requests == [] then g else AdmitAll(Admit(g, requests[0], window), requests[1..], window)
  }

  const CLOSED: Gate := Gate(map[], map[], [])

  function Times(requests: seq<Request>): seq<Time> {
    if requests == [] then [] else [requests[0].time] + Times(requests[1..])
  }

  /** The times of the requests of one actor. */
  function TimesBy(requests: seq<Request>, actor: nat): seq<Time> {
    if requests == [] then []
    else (if requests[0].actor == actor then [requests[0].time] else []) + TimesBy(requests[1..], actor)
  }

  /** When requests passed, and when those of one actor did. */
  function PassTimes(passes: seq<Pass>): seq<Time> {
    if passes == [] then [] else PassTimes(passes[..|passes| - 1]) + [passes[|passes| - 1].time]
  }

  function PassTimesOf(passes: seq<Pass>, actor: nat): seq<Time> {
    if passes == [] then []
    else
      var last, earlier := passes[|passes| - 1], PassTimesOf(passes[..|passes| - 1], actor);
      if last.actor == actor then earlier + [last.time] else earlier
  }

  lemma OnePass(passes: seq<Pass>, p: Pass, actor: nat)
    ensures PassTimes(passes + [p]) == PassTimes(passes) + [p.time]
    ensures PassTimesOf(passes + [p], actor) == PassTimesOf(passes, actor) + if p.actor == actor then [p.time] else []
  {
    assert (passes + [p])[..|passes|] == passes;
    assert PassTimesOf(passes, actor) + [] == PassTimesOf(passes, actor);
  }

  // ---- one request --------------------------------------------------------

  /** The hits a key has had in the window that is current at `now`. */
  function HitsNow(hits: map<nat, Window>, key: nat, now: Time, window: nat): nat {
    if key in hits && now < hits[key].start + window then hits[key].count else 0
  }

  /** A request passes if and only if the token has had fewer than 1000 hits and its actor
      fewer than 100 in their current windows. Every request counts against the token, and
      against its actor unless the token's own limit refuses it. */
  lemma AdmitIff(g: Gate, r: Request, window: nat)
    requires window > 0
    ensures var g' := Admit(g, r, window);
            var all, own := HitsNow(g.global, 0, r.time, window), HitsNow(g.actors, r.actor, r.time, window);
            && g'.admitted == g.admitted + (if all < 1000 && own < 100 then [Pass(r.time, r.actor)] else [])
            && HitsNow(g'.global, 0, r.time, window) == all + 1
            && (if all < 1000 then HitsNow(g'.actors, r.actor, r.time, window) == own + 1 else g'.actors == g.actors)
  {
    assert g.admitted + [] == g.admitted;
  }

  // ---- everything the token lets through ----------------------------------

  lemma CountSubset(a: seq<Time>, b: seq<Time>, t: Time)
    requires forall x: Time, n: nat :: Within(a, x, n) <= Within(b, x, n)
    ensures forall x: Time, n: nat :: Within(a + [t], x, n) <= Within(b + [t], x, n)
    ensures forall x: Time, n: nat :: Within(a, x, n) <= Within(b + [t], x, n)
  {
    forall x: Time, n: nat
      ensures Within(a + [t], x, n) <= Within(b + [t], x, n) && Within(a, x, n) <= Within(b + [t], x, n)
    {
      CountAppend(a, t, x, x + n);
      CountAppend(b, t, x, x + n);
      assert Within(a, x, n) <= Within(b, x, n);
    }
  }

  /** What gets through is at most what the global window lets through. */
  lemma {:induction false} AdmittedByGlobal(g: Gate, requests: seq<Request>, k: Key, window: nat)
    requires k.w == Lookup(g.global, 0)
    requires forall x: Time, n: nat :: Within(PassTimes(g.admitted), x, n) <= Within(k.admitted, x, n)
    ensures forall x: Time, n: nat ::
              Within(PassTimes(AdmitAll(g, requests, window).admitted), x, n)
              <= Within(HitAll(k, Times(requests), window, GLOBAL_MAX).admitted, x, n)
    decreases |requests|
  {
    if requests != [] {
      var r := requests[0];
      CountSubset(PassTimes(g.admitted), k.admitted, r.time);
      OnePass(g.admitted, Pass(r.time, r.actor), r.actor);
      hide PassTimes, Within;
      AdmittedByGlobal(Admit(g, r, window), requests[1..], HitKey(k, r.time, window, GLOBAL_MAX), window);
      assert Times(requests)[1..] == Times(requests[1..]);
    }
  }

  /** At most 1999 requests get through in any ten seconds (`window`, in the clock's
      unit), whatever actor ids are sent. */
  lemma TokenCeiling(requests: seq<Request>, window: nat, a: Time)
    requires window > 0 && Sorted(Times(requests))
    ensures Within(PassTimes(AdmitAll(CLOSED, requests, window).admitted), a, window) <= 1999
  {
    AdmittedByGlobal(CLOSED, requests, Key(None, []), window);
    KeyCeiling(Times(requests), window, GLOBAL_MAX, a);
  }

  /** The same times, every request by an actor of its own. */
  function Spread(times: seq<Time>, actor: nat): seq<Request> {
    if times == [] then [] else [Request(times[0], actor, None)] + Spread(times[1..], actor + 1)
  }

  lemma {:induction false} SpreadTimes(times: seq<Time>, actor: nat)
    ensures Times(Spread(times, actor)) == times
  {
    if times != [] {
      SpreadTimes(times[1..], actor + 1);
      HeadAndTail(times);
    }
  }

  /** Requests by ever new actors pass whenever the global limiter lets them. */
  lemma {:induction false} SpreadFollowsGlobal(g: Gate, times: seq<Time>, actor: nat, k: Key, window: nat)
    requires k.w == Lookup(g.global, 0) && k.admitted == PassTimes(g.admitted)
    requires forall a | a in g.actors :: a < actor
    ensures PassTimes(AdmitAll(g, Spread(times, actor), window).admitted) == HitAll(k, times, window, GLOBAL_MAX).admitted
    decreases |times|
  {
    if times != [] {
      hide PassTimes;
      var r := Request(times[0], actor, None);
      assert Spread(times, actor)[1..] == Spread(times[1..], actor + 1);
      NewActorPasses(g, r, k, window);
      SpreadFollowsGlobal(Admit(g, r, window), times[1..], actor + 1, HitKey(k, times[0], window, GLOBAL_MAX), window);
    }
  }

  lemma NewActorPasses(g: Gate, r: Request, k: Key, window: nat)
    requires k.w == Lookup(g.global, 0) && k.admitted == PassTimes(g.admitted)
    requires r.victim.None? && forall a | a in g.actors :: a < r.actor
    ensures var g', k' := Admit(g, r, window), HitKey(k, r.time, window, GLOBAL_MAX);
            && k'.w == Lookup(g'.global, 0) && k'.admitted == PassTimes(g'.admitted)
            && forall a | a in g'.actors :: a < r.actor + 1
  {
    OnePass(g.admitted, Pass(r.time, r.actor), r.actor);
    hide PassTimes;
  }

  /** That many do get through, at any window of two units or more: 1999 requests in one
      stretch of the window's length, each by another actor. */
  lemma TokenCeilingIsReached(window: nat)
    requires window >= 2
    ensures var requests := Spread(Burst(window, GLOBAL_MAX), 0);
            && Times(requests) == Burst(window, GLOBAL_MAX)
            && Within(PassTimes(AdmitAll(CLOSED, requests, window).admitted), 1, window) == 1999
  {
    hide AdmitAll, HitAll, Spread, Burst, Times;
    SpreadTimes(Burst(window, GLOBAL_MAX), 0);
    SpreadFollowsGlobal(CLOSED, Burst(window, GLOBAL_MAX), 0, Key(None, []), window);
    CeilingIsReached(window, GLOBAL_MAX);
  }

  // ---- what one actor gets through ----------------------------------------

  /** An actor's window and the times their requests passed. */
  function ActorKey(g: Gate, actor: nat): Key {
    Key(Lookup(g.actors, actor), PassTimesOf(g.admitted, actor))
  }

  lemma LookupAfter(hits: map<nat, Window>, c: Call, key: nat, window: nat)
    requires c.victim != Some(key)
    ensures Lookup(AllowSpec(hits, c, window), key)
            == if c.key == key then Some(Hit(Lookup(hits, key), c.time, window)) else Lookup(hits, key)
  {
  }

  lemma PassTimesAfter(g: Gate, r: Request, actor: nat, window: nat)
    ensures var before, admitted := PassTimesOf(g.admitted, actor), Admit(g, r, window).admitted;
            PassTimesOf(admitted, actor)
            == if admitted != g.admitted && r.actor == actor then before + [r.time] else before
  {
    OnePass(g.admitted, Pass(r.time, r.actor), actor);
    var before := PassTimesOf(g.admitted, actor);
    assert before + [] == before;
    hide PassTimesOf, AllowSpec;
  }

  /** A request is a hit of its actor's key, or leaves that key alone. */
  lemma RequestIsHit(g: Gate, r: Request, actor: nat, window: nat)
    requires r.victim != Some(actor)
    ensures var k, k' := ActorKey(g, actor), ActorKey(Admit(g, r, window), actor);
            k' == k || (r.actor == actor && k' == HitKey(k, r.time, window, ACTOR_MAX))
    ensures r.actor == actor && HitsNow(g.global, 0, r.time, window) < GLOBAL_MAX ==>
              ActorKey(Admit(g, r, window), actor) == HitKey(ActorKey(g, actor), r.time, window, ACTOR_MAX)
  {
    var c := Call(r.time, r.actor, r.victim);
    PassTimesAfter(g, r, actor, window);
    LookupAfter(g.actors, c, actor, window);
    hide PassTimesOf;
  }

  lemma {:induction false} ActorStaysBounded(g: Gate, requests: seq<Request>, actor: nat, window: nat)
    requires window > 0 && Bounded(ActorKey(g, actor), window, ACTOR_MAX)
    requires forall r | r in requests :: r.victim != Some(actor)
    requires Sorted(TimesBy(requests, actor))
    requires actor in g.actors ==> forall t | t in TimesBy(requests, actor) :: g.actors[actor].start <= t
    ensures Bounded(ActorKey(AdmitAll(g, requests, window), actor), window, ACTOR_MAX)
    decreases |requests|
  {
    if requests != [] {
      var r, rest := requests[0], TimesBy(requests[1..], actor);
      assert r in requests && forall x | x in requests[1..] :: x in requests;
      assert TimesBy(requests, actor) == (if r.actor == actor then [r.time] else []) + rest;
      assert [] + rest == rest && ([r.time] + rest)[1..] == rest && ([r.time] + rest)[0] == r.time;
      RequestIsHit(g, r, actor, window);
      var k := ActorKey(g, actor);
      assert r.actor == actor ==> r.time in TimesBy(requests, actor);
      assert k.w == Lookup(g.actors, actor) && ActorKey(Admit(g, r, window), actor).w == Lookup(Admit(g, r, window).actors, actor);
      hide Admit, ActorKey, Bounded, TimesBy;
      if r.actor == actor {
        HitKeepsBound(k, r.time, window, ACTOR_MAX);
      }
      ActorStaysBounded(Admit(g, r, window), requests[1..], actor, window);
    }
  }

  /** An actor whose entry the map never gives up gets at most 199 requests through in any
      half-open interval of the window's length, whatever the other actors send. */
  lemma ActorCeiling(requests: seq<Request>, actor: nat, window: nat, a: Time)
    requires window > 0 && Sorted(TimesBy(requests, actor))
    requires forall r | r in requests :: r.victim != Some(actor)
    ensures Within(PassTimesOf(AdmitAll(CLOSED, requests, window).admitted, actor), a, window) <= 199
  {
    ActorStaysBounded(CLOSED, requests, actor, window);
    CountNone([], a, a + window);
  }

  /** The same times, every request by the same actor. */
  function Alone(times: seq<Time>, actor: nat): seq<Request> {
    if times == [] then [] else [Request(times[0], actor, None)] + Alone(times[1..], actor)
  }

  lemma {:induction false} AloneTimes(times: seq<Time>, actor: nat)
    ensures Times(Alone(times, actor)) == times
  {
    if times != [] {
      AloneTimes(times[1..], actor);
      HeadAndTail(times);
    }
  }

  /** As long as the token's budget lasts, only the actor's own window decides. */
  lemma {:induction false} AloneFollowsActor(g: Gate, times: seq<Time>, actor: nat, window: nat)
    requires 0 in g.global ==> g.global[0].count + |times| <= GLOBAL_MAX
    requires |times| <= GLOBAL_MAX
    ensures ActorKey(AdmitAll(g, Alone(times, actor), window), actor) == HitAll(ActorKey(g, actor), times, window, ACTOR_MAX)
    decreases |times|
  {
    if times != [] {
      var r := Request(times[0], actor, None);
      assert Alone(times, actor)[1..] == Alone(times[1..], actor);
      RequestIsHit(g, r, actor, window);
      hide ActorKey, HitKey;
      AloneFollowsActor(Admit(g, r, window), times[1..], actor, window);
    }
  }

  /** 199 do get through, at any window of two units or more. */
  lemma ActorCeilingIsReached(actor: nat, window: nat)
    requires window >= 2
    ensures var requests := Alone(Burst(window, 100), actor);
            && Times(requests) == Burst(window, 100)
            && Within(PassTimesOf(AdmitAll(CLOSED, requests, window).admitted, actor), 1, window) == 199
  {
    hide AdmitAll, HitAll, Alone, Times;
    AloneTimes(Burst(window, 100), actor);
    assert |Burst(window, 100)| == 200;
    hide Burst;
    AloneFollowsActor(CLOSED, Burst(window, 100), actor, window);
    CeilingIsReached(window, 100);
  }
}
