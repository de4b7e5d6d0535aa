/** The capped map, the cooldown limiter over it, and what it lets a member earn. */
module Cooldown {
  import opened Base

  type Time = int

  /** Entries a full map gives up before an insert: enough to end at the cap. */
  function Excess(size: nat, cap: nat): nat {
    if size < cap then 0 else if cap == 0 then size else size + 1 - cap
  }

  class Limiter<K(==)> {
    const cap: nat
    var last: map<K, Time>

    constructor (cap: nat)
      ensures this.cap == cap && last == map[]
    {
      this.cap, last := cap, map[];
    }

    /** `bounded_insert`: at the cap, give up entries first, even for a key already there. */
    method BoundedInsert(key: K, value: Time) returns (victims: set<K>)
      modifies this`last
      ensures victims <= old(last).Keys && |victims| == Excess(|old(last)|, cap)
      ensures last == (old(last) - victims)[key := value]
      ensures cap >= 1 ==> |last| <= cap
    {
      victims := {};
      var excess := Excess(|last|, cap);
      while |victims| < excess
        invariant victims <= old(last).Keys && |victims| <= excess
        invariant last == old(last) - victims && |last| == |old(last)| - |victims|
        decreases excess - |victims|
      {
        var k :| k in last.Keys;
        RemoveOne(last, k);
        victims := victims + {k};
        last := last - {k};
      }
      PutOne(last, key, value);
      last := last[key := value];
    }

    /** The time left, or None when the key is let through and its clock restarts. */
    method Check(key: K, window: nat, now: Time) returns (remaining: Option<int>, victims: set<K>)
      modifies this`last
      ensures remaining == Remaining(old(last), key, window, now)
      ensures remaining.Some? ==> last == old(last)
      ensures remaining.None? ==>
                victims <= old(last).Keys && |victims| == Excess(|old(last)|, cap)
                && last == (old(last) - victims)[key := now]
    {
      victims := {};
      remaining := None;
      if key in last {
        var elapsed := now - last[key];
        if elapsed < window {
          return Some(window - elapsed), {};
        }
      }
      victims := BoundedInsert(key, now);
    }
  }

  function Remaining<K>(last: map<K, Time>, key: K, window: nat, now: Time): Option<int> {
    if key in last && now - last[key] < window then Some(window - (now - last[key])) else None
  }

  // ---- messages that may earn experience ----------------------------------

  type Member = nat

  /** A message: who, when, the entries the map gives up, and the award drawn. */
  datatype Message = Message(time: Time, member: Member, victims: set<Member>, award: int)

  datatype Gain = Gain(time: Time, award: int)

  function After(last: map<Member, Time>, m: Message, window: nat): map<Member, Time> {
    if Remaining(last, m.member, window, m.time).Some? then last else (last - m.victims)[m.member := m.time]
  }

  /** The awards `who` receives in a run of messages. */
  function Gains(last: map<Member, Time>, messages: seq<Message>, who: Member, window: nat): seq<Gain>
    decreases |messages|
  {
    if messages == [] then []
    else
      var m := messages[0];
      (if m.member == who && Remaining(last, who, window, m.time).None? then [Gain(m.time, m.award)] else [])
      + Gains(After(last, m, window), messages[1..], who, window)
  }

  /** Each message comes no earlier than the one before, its author is one of
      `members`, and the entries given up are as many as the map demands. */
  ghost predicate Legal(last: map<Member, Time>, messages: seq<Message>, now: Time, members: set<Member>, cap: nat, window: nat)
    decreases |messages|
  {
    messages != [] ==>
      var m := messages[0];
      && now <= m.time && m.member in members
      && m.victims <= last.Keys && |m.victims| == Excess(|last|, cap)
      && Legal(After(last, m, window), messages[1..], m.time, members, cap, window)
  }

  /** Gains at least `window` apart, the first no earlier than `from`. */
  ghost predicate Spaced(gains: seq<Gain>, window: nat, from: Time) {
    gains != [] ==> from <= gains[0].time && Spaced(gains[1..], window, gains[0].time + window)
  }

  lemma SubsetSize(a: set<Member>, b: set<Member>)
    requires a <= b
    ensures |a| <= |b|
  {
    if a != b {
      assert b == a + (b - a);
    }
  }

  /** With fewer members than the cap nothing is ever given up, so a member's gains
      are a window apart. */
  lemma {:induction false} GainsAreSpaced(last: map<Member, Time>, messages: seq<Message>, now: Time,
                                          members: set<Member>, cap: nat, window: nat, who: Member)
    requires |members| < cap && last.Keys <= members && Legal(last, messages, now, members, cap, window)
    requires forall k | k in last :: last[k] <= now
    ensures Spaced(Gains(last, messages, who, window), window, if who in last then last[who] + window else now)
    decreases |messages|
  {
    if messages != [] {
      var m := messages[0];
      SubsetSize(last.Keys, members);
      assert m.victims == {};
      assert last - m.victims == last;
      var after := After(last, m, window);
      assert after.Keys <= members;
      assert Legal(after, messages[1..], m.time, members, cap, window);
      hide Legal, Excess;
      GainsAreSpaced(after, messages[1..], m.time, members, cap, window, who);
      var rest := Gains(after, messages[1..], who, window);
      if m.member == who && Remaining(last, who, window, m.time).None? {
        assert ([Gain(m.time, m.award)] + rest)[1..] == rest;
      } else {
        assert [] + rest == rest;
        if who !in last { SpacedEarlier(rest, window, m.time, now); }
      }
    }
  }

  // ---- exactly which messages earn ----------------------------------------

  function AfterAll(last: map<Member, Time>, messages: seq<Message>, window: nat): map<Member, Time>
    decreases |messages|
  {
    if messages == [] then last else AfterAll(After(last, messages[0], window), messages[1..], window)
  }

  /** With fewer members than the cap no message gives anything up. */
  lemma {:induction false} NothingGivenUp(last: map<Member, Time>, messages: seq<Message>, now: Time,
                                          members: set<Member>, cap: nat, window: nat)
    requires |members| < cap && last.Keys <= members && Legal(last, messages, now, members, cap, window)
    ensures forall m | m in messages :: m.victims == {}
    decreases |messages|
  {
    if messages != [] {
      var m := messages[0];
      SubsetSize(last.Keys, members);
      assert m.victims == {} && last - m.victims == last;
      NothingGivenUp(After(last, m, window), messages[1..], m.time, members, cap, window);
    }
  }

  lemma {:induction false} GainsAppend(last: map<Member, Time>, messages: seq<Message>, m: Message, who: Member, window: nat)
    ensures Gains(last, messages + [m], who, window) ==
              Gains(last, messages, who, window) +
              if m.member == who && Remaining(AfterAll(last, messages, window), who, window, m.time).None?
              then [Gain(m.time, m.award)] else []
    decreases |messages|
  {
    if messages == [] {
      assert ([] + [m])[1..] == [];
      assert Gains(After(last, m, window), [], who, window) == [];
    } else {
      var after, all := After(last, messages[0], window), messages + [m];
      assert all[0] == messages[0] && all[1..] == messages[1..] + [m];
      GainsAppend(after, messages[1..], m, who, window);
      hide After, Remaining, AfterAll;
      assert AfterAll(last, messages, window) == AfterAll(after, messages[1..], window) by { AfterHead(last, messages, window); }
      Assoc(if messages[0].member == who && Remaining(last, who, window, messages[0].time).None?
            then [Gain(messages[0].time, messages[0].award)] else [],
            Gains(after, messages[1..], who, window),
            if m.member == who && Remaining(AfterAll(last, messages, window), who, window, m.time).None?
            then [Gain(m.time, m.award)] else []);
    }
  }

  lemma AfterHead(last: map<Member, Time>, messages: seq<Message>, window: nat)
    requires messages != []
    ensures AfterAll(last, messages, window) == AfterAll(After(last, messages[0], window), messages[1..], window)
  {
  }

  lemma ClockStep(last: map<Member, Time>, m: Message, who: Member, window: nat)
    requires m.victims == {}
    ensures var after := After(last, m, window);
            if m.member == who && Remaining(last, who, window, m.time).None? then who in after && after[who] == m.time
            else (who in after <==> who in last) && (who in last ==> after[who] == last[who])
  {
    assert last - m.victims == last;
  }

  /** A member's clock stands at their last gain. */
  lemma {:induction false} ClockIsLastGain(last: map<Member, Time>, messages: seq<Message>, who: Member, window: nat)
    requires forall m | m in messages :: m.victims == {}
    ensures var clock, gains := AfterAll(last, messages, window), Gains(last, messages, who, window);
            if gains == [] then (who in clock <==> who in last) && (who in last ==> clock[who] == last[who])
            else who in clock && clock[who] == gains[|gains| - 1].time
    decreases |messages|
  {
    if messages != [] {
      var m, after := messages[0], After(last, messages[0], window);
      assert m in messages && forall x | x in messages[1..] :: x in messages;
      ClockIsLastGain(after, messages[1..], who, window);
      hide *;
      ClockStep(last, m, who, window);
      AfterHead(last, messages, window);
      GainsHead(last, messages, who, window);
    }
  }

  lemma GainsHead(last: map<Member, Time>, messages: seq<Message>, who: Member, window: nat)
    requires messages != []
    ensures var m, rest := messages[0], Gains(After(last, messages[0], window), messages[1..], who, window);
            var gains := Gains(last, messages, who, window);
            if m.member == who && Remaining(last, who, window, m.time).None?
            then gains != [] && gains[|gains| - 1] == if rest == [] then Gain(m.time, m.award) else rest[|rest| - 1]
            else gains == rest
  {
    hide After, Remaining;
    var rest := Gains(After(last, messages[0], window), messages[1..], who, window);
    assert [] + rest == rest;
  }

  /** With fewer members than the cap, a message earns its award if and only if its author has
      earned nothing yet, or their last award is at least a cooldown old. */
  lemma AwardedIff(messages: seq<Message>, m: Message, now: Time, members: set<Member>, cap: nat, window: nat)
    requires |members| < cap && Legal(map[], messages, now, members, cap, window)
    ensures var earned := Gains(map[], messages, m.member, window);
            Gains(map[], messages + [m], m.member, window) ==
              earned + if earned == [] || m.time >= earned[|earned| - 1].time + window then [Gain(m.time, m.award)] else []
  {
    NothingGivenUp(map[], messages, now, members, cap, window);
    ClockIsLastGain(map[], messages, m.member, window);
    GainsAppend(map[], messages, m, m.member, window);
    hide Legal, Gains, AfterAll;
  }

  lemma SpacedEarlier(gains: seq<Gain>, window: nat, from: Time, from': Time)
    requires Spaced(gains, window, from) && from' <= from
    ensures Spaced(gains, window, from')
  {
  }

  /** Number and sum of the gains in [a, b]. */
  function CountIn(gains: seq<Gain>, a: Time, b: Time): nat {
    if gains == [] then 0 else (if a <= gains[0].time <= b then 1 else 0) + CountIn(gains[1..], a, b)
  }

  function SumIn(gains: seq<Gain>, a: Time, b: Time): int {
    if gains == [] then 0 else (if a <= gains[0].time <= b then gains[0].award else 0) + SumIn(gains[1..], a, b)
  }

  lemma {:induction false} SpacedCount(gains: seq<Gain>, window: nat, from: Time, a: Time, b: Time)
    requires window >= 1 && Spaced(gains, window, from)
    ensures CountIn(gains, a, b) > 0 ==>
              var first := if from < a then a else from;
              window * (CountIn(gains, a, b) - 1) <= b - first
    decreases gains
  {
    if gains != [] {
      var t, rest := gains[0].time, CountIn(gains[1..], a, b);
      SpacedCount(gains[1..], window, t + window, a, b);
      if a <= t <= b && rest > 0 {
        assert window * rest == window * (rest - 1) + window;
      }
    }
  }

  lemma {:induction false} SumBounded(gains: seq<Gain>, a: Time, b: Time, most: nat)
    requires forall g | g in gains :: g.award <= most
    ensures SumIn(gains, a, b) <= most * CountIn(gains, a, b)
  {
    if gains != [] {
      assert forall g | g in gains[1..] :: g in gains;
      SumBounded(gains[1..], a, b, most);
      var n := CountIn(gains[1..], a, b);
      assert most * (1 + n) == most + most * n;
      assert gains[0] in gains;
    }
  }

  lemma {:induction false} GainsAreAwards(last: map<Member, Time>, messages: seq<Message>, who: Member, window: nat, most: int)
    requires forall m | m in messages :: m.award <= most
    ensures forall g | g in Gains(last, messages, who, window) :: g.award <= most
    decreases |messages|
  {
    if messages != [] {
      assert messages[0] in messages;
      GainsAreAwards(After(last, messages[0], window), messages[1..], who, window, most);
    }
  }

  lemma QuotientBound(window: nat, n: nat, span: nat)
    requires window >= 1 && window * n <= span
    ensures n <= span / window
  {
    ProductsApart(window, span / window, n);
    assert span == window * (span / window) + span % window;
  }

  /** In any closed span of `span` time units a member earns at most
      (span div cooldown + 1) awards, each at most the larger configured bound. */
  lemma XpBound(messages: seq<Message>, now: Time, members: set<Member>, cap: nat, cooldown: nat, who: Member,
                xpMin: int, xpMax: int, a: Time, span: nat)
    requires |members| < cap && cooldown >= 1 && Legal(map[], messages, now, members, cap, cooldown)
    requires forall m | m in messages :: m.award <= if xpMax < xpMin then xpMin else xpMax
    requires xpMin >= 0 || xpMax >= 0
    ensures var gains := Gains(map[], messages, who, cooldown);
            && CountIn(gains, a, a + span) <= span / cooldown + 1
            && SumIn(gains, a, a + span) <= (if xpMax < xpMin then xpMin else xpMax) * (span / cooldown + 1)
  {
    hide *;
    var gains := Gains(map[], messages, who, cooldown);
    var most := if xpMax < xpMin then xpMin else xpMax;
    GainsAreSpaced(map[], messages, now, members, cap, cooldown, who);
    SpacedCount(gains, cooldown, now, a, a + span);
    var n := CountIn(gains, a, a + span);
    if n > 0 { QuotientBound(cooldown, n - 1, span); }
    GainsAreAwards(map[], messages, who, cooldown, most);
    SumBounded(gains, a, a + span, most);
    Monotone(most, n, span / cooldown + 1);
  }

  lemma Monotone(m: nat, a: nat, b: nat)
    requires a <= b
    ensures m * a <= m * b
  {
  }
}
