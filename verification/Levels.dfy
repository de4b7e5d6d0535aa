/** The level curve, its inversion, and the rewards a run of awards hands out. */
module Levels {
  import opened Base

  newtype I64 = x: int | -0x8000_0000_0000_0000 <= x < 0x8000_0000_0000_0000

  /** Experience needed to go from `level` to the next. */
  function XpForLevel(level: nat): nat {
    5 * level * level + 50 * level + 100
  }

  /** Experience at which `level` is reached. */
  function Cumulative(level: nat): nat {
    if level == 0 then 0 else Cumulative(level - 1) + XpForLevel(level - 1)
  }

  lemma Powers(n: nat)
    ensures (n + 1) * (n + 1) == n * n + 2 * n + 1
    ensures (n + 1) * (n + 1) * (n + 1) == n * n * n + 3 * (n * n) + 3 * n + 1
  {
    var s := (n + 1) * (n + 1);
    assert s * (n + 1) == s * n + s;
    assert (n * n + 2 * n + 1) * n == n * n * n + 2 * (n * n) + n;
  }

  lemma XpExpanded(level: nat)
    ensures XpForLevel(level) == 5 * (level * level) + 50 * level + 100
  {
    assert 5 * level * level == 5 * (level * level);
  }

  lemma {:induction false} Expanded(level: nat)
    ensures 6 * Cumulative(level) == 10 * (level * level * level) + 135 * (level * level) + 455 * level
  {
    if level > 0 {
      Expanded(level - 1);
      Powers(level - 1);
      XpExpanded(level - 1);
      hide XpForLevel;
    }
  }

  lemma Quadratic(l: nat)
    ensures l * (l + 7) == l * l + 7 * l
    ensures (l * l + 7 * l) * (2 * l + 13) == 2 * (l * l * l) + 27 * (l * l) + 91 * l
  {
    var q := l * l;
    assert q * (2 * l + 13) == 2 * (q * l) + 13 * q;
    assert (7 * l) * (2 * l + 13) == 14 * q + 91 * l;
    Distribute(q, 7 * l, 2 * l + 13);
  }

  lemma Distribute(a: int, b: int, c: int)
    ensures (a + b) * c == a * c + b * c
  {
  }

  lemma Regroup(a: nat, b: nat, c: nat)
    ensures 5 * a * b * c == 5 * (a * b * c)
  {
    assert 5 * a * b == 5 * (a * b);
  }

  /** The closed form of the curve, and its cubic lower bound. */
  lemma ClosedForm(level: nat)
    ensures Cumulative(level) == 5 * level * (level + 7) * (2 * level + 13) / 6
    ensures 5 * (level * level * level) <= 3 * Cumulative(level)
  {
    Expanded(level);
    Quadratic(level);
    Regroup(level, level + 7, 2 * level + 13);
    Squares(0, level);
    hide Cumulative;
  }

  lemma {:induction false} CumulativeGrows(a: nat, b: nat)
    requires a < b
    ensures Cumulative(a) + 100 <= Cumulative(b)
  {
    if a + 1 < b {
      CumulativeGrows(a, b - 1);
    }
  }

  /** `total` lies on the curve between `level` and the next. */
  predicate IsLevel(level: nat, total: int) {
    Cumulative(level) <= total < Cumulative(level + 1)
  }

  lemma LevelIsUnique(a: nat, b: nat, total: int)
    requires IsLevel(a, total) && IsLevel(b, total)
    ensures a == b
  {
    if a < b {
      if a + 1 < b { CumulativeGrows(a + 1, b); }
    } else if b < a {
      if b + 1 < a { CumulativeGrows(b + 1, a); }
    }
  }

  /** The level of a total, searching from `level` up; 0 for a negative total. */
  function LevelFrom(total: int, level: nat): (r: nat)
    requires level == 0 || Cumulative(level) <= total
    ensures total >= 0 ==> IsLevel(r, total)
    decreases total - Cumulative(level)
  {
    if total - Cumulative(level) < XpForLevel(level) then level else LevelFrom(total, level + 1)
  }

  function LevelOf(total: int): nat {
    LevelFrom(total, 0)
  }

  lemma Squares(a: nat, b: nat)
    requires a <= b
    ensures 0 <= a * a <= b * b && a * a * a <= b * b * b
  {
    assert a * a <= a * b;
    assert a * b <= b * b;
    assert (a * a) * a <= (b * b) * a;
    assert (b * b) * a <= (b * b) * b;
  }

  /** A level whose cost fits 64 bits is small enough for its cost to be computed in 64 bits. */
  lemma SmallEnough(level: nat)
    requires Cumulative(level) < 0x8000_0000_0000_0000
    ensures level < 2_000_000
    ensures 0 <= 5 * level * level <= 20_000_000_000_000
  {
    ClosedForm(level);
    hide Cumulative;
    if level >= 2_000_000 {
      Squares(2_000_000, level);
    }
    Squares(level, 2_000_000);
    XpExpanded(level);
  }

  /** `level_from_xp`: for any 64-bit total it ends, without overflow, at the one
      level whose stretch of the curve holds the total. */
  method LevelFromXp(total: I64) returns (level: I64, remaining: I64, needed: I64)
    ensures level >= 0 && level as int == LevelOf(total as int)
    ensures total >= 0 ==>
              && IsLevel(level as int, total as int)
              && remaining as int == total as int - Cumulative(level as int)
              && 0 <= remaining < needed
              && 5 * (level as int * level as int * level as int) <= 3 * total as int
    ensures total < 0 ==> level == 0 && remaining == total
    ensures needed as int == XpForLevel(level as int)
  {
    level, remaining := 0, total;
    while true
      invariant 0 <= level && remaining as int == total as int - Cumulative(level as int)
      invariant level == 0 || remaining >= 0
      invariant LevelFrom(total as int, level as int) == LevelOf(total as int)
      decreases remaining
    {
      SmallEnough(level as int);
      ClosedForm(level as int);
      needed := 5 * level * level + 50 * level + 100;
      if remaining < needed {
        return;
      }
      remaining := remaining - needed;
      level := level + 1;
    }
  }

  /** A 64-bit sum, wrapping around. */
  function Wrap64(x: int): (r: I64)
    ensures -0x8000_0000_0000_0000 <= x < 0x8000_0000_0000_0000 ==> r as int == x
  {
    ((x + 0x8000_0000_0000_0000) % 0x1_0000_0000_0000_0000 - 0x8000_0000_0000_0000) as I64
  }

  // ---- rewards ------------------------------------------------------------

  type RoleId = nat
  datatype Reward = Reward(level: int, role: RoleId)

  /** The rewards an award hands out, going from one level to another. */
  function Granted(rewards: seq<Reward>, before: int, after: int): seq<Reward> {
    if rewards == [] then []
    else (if before < rewards[0].level <= after then [rewards[0]] else []) + Granted(rewards[1..], before, after)
  }

  /** A member's total, and the rewards handed out so far. */
  class LevelsCog {
    const rewards: seq<Reward>
    var xp: I64
    var granted: seq<Reward>

    /** The part of `on_message` after the cooldown: store the total, then reward. */
    method OnAward(award: I64)
      modifies this
      ensures xp == Wrap64(old(xp) as int + award as int)
      ensures granted == old(granted) + Granted(rewards, LevelOf(old(xp) as int), LevelOf(xp as int))
      ensures forall r: Reward ::
                multiset(granted)[r] == multiset(old(granted))[r]
                  + if LevelOf(old(xp) as int) < r.level <= LevelOf(xp as int) then multiset(rewards)[r] else 0
    {
      var oldXp := xp;
      xp := Wrap64(xp as int + award as int);
      var oldLevel, _, _ := LevelFromXp(oldXp);
      var newLevel, _, _ := LevelFromXp(xp);
      ghost var was := granted;
      if newLevel <= oldLevel {
        NothingGranted(rewards, oldLevel as int, newLevel as int);
        assert was + [] == was;
        GrantsAdd(was, rewards, oldLevel as int, newLevel as int);
        return;
      }
      assert rewards[0..] == rewards;
      for i := 0 to |rewards|
        invariant xp == Wrap64(oldXp as int + award as int)
        invariant granted + Granted(rewards[i..], oldLevel as int, newLevel as int)
                  == was + Granted(rewards, oldLevel as int, newLevel as int)
      {
        assert rewards[i..][1..] == rewards[i + 1..];
        var rest := Granted(rewards[i + 1..], oldLevel as int, newLevel as int);
        if rewards[i].level > oldLevel as int && rewards[i].level <= newLevel as int {
          Assoc(granted, [rewards[i]], rest);
          granted := granted + [rewards[i]];
        } else {
          assert [] + rest == rest;
        }
      }
      assert granted + [] == granted;
      GrantsAdd(was, rewards, oldLevel as int, newLevel as int);
    }
  }

  /** A reward is handed out, as often as it is configured, exactly when its level is above
      the old one and at most the new one. */
  lemma {:induction false} GrantedCounts(rewards: seq<Reward>, before: int, after: int, r: Reward)
    ensures multiset(Granted(rewards, before, after))[r]
            == if before < r.level <= after then multiset(rewards)[r] else 0
  {
    if rewards != [] {
      HeadAndTail(rewards);
      GrantedCounts(rewards[1..], before, after, r);
    }
  }

  lemma GrantsAdd(was: seq<Reward>, rewards: seq<Reward>, before: int, after: int)
    ensures forall r: Reward ::
              multiset(was + Granted(rewards, before, after))[r]
              == multiset(was)[r] + if before < r.level <= after then multiset(rewards)[r] else 0
  {
    forall r: Reward
      ensures multiset(was + Granted(rewards, before, after))[r]
              == multiset(was)[r] + if before < r.level <= after then multiset(rewards)[r] else 0
    {
      GrantedCounts(rewards, before, after, r);
    }
  }

  lemma {:induction false} NothingGranted(rewards: seq<Reward>, before: int, after: int)
    requires after <= before
    ensures Granted(rewards, before, after) == []
  {
    if rewards != [] {
      NothingGranted(rewards[1..], before, after);
    }
  }

  function Total(xp: int, awards: seq<nat>): int
    decreases |awards|
  {
    if awards == [] then xp else Total(xp + awards[0], awards[1..])
  }

  /** Everything handed out over a run of awards. */
  function GrantedOver(rewards: seq<Reward>, xp: int, awards: seq<nat>): seq<Reward>
    decreases |awards|
  {
    if awards == [] then []
    else Granted(rewards, LevelOf(xp), LevelOf(xp + awards[0])) + GrantedOver(rewards, xp + awards[0], awards[1..])
  }

  lemma LevelMonotone(a: int, b: int)
    requires 0 <= a <= b
    ensures LevelOf(a) <= LevelOf(b)
  {
    if LevelOf(b) < LevelOf(a) {
      if LevelOf(b) + 1 < LevelOf(a) { CumulativeGrows(LevelOf(b) + 1, LevelOf(a)); }
    }
  }

  lemma {:induction false} GrantsSplit(rewards: seq<Reward>, a: int, b: int, c: int)
    requires a <= b <= c
    ensures multiset(Granted(rewards, a, b)) + multiset(Granted(rewards, b, c)) == multiset(Granted(rewards, a, c))
  {
    if rewards != [] {
      GrantsSplit(rewards[1..], a, b, c);
    }
  }

  lemma {:induction false} TotalGrows(xp: int, awards: seq<nat>)
    ensures xp <= Total(xp, awards)
    decreases |awards|
  {
    if awards != [] {
      TotalGrows(xp + awards[0], awards[1..]);
    }
  }

  /** Over any run of awards the rewards handed out are, counted with repetition,
      exactly those above the starting level and up to the final one. */
  lemma {:induction false} EachRewardOnce(rewards: seq<Reward>, xp: int, awards: seq<nat>)
    requires xp >= 0
    ensures multiset(GrantedOver(rewards, xp, awards))
            == multiset(Granted(rewards, LevelOf(xp), LevelOf(Total(xp, awards))))
    decreases |awards|
  {
    if awards == [] {
      NothingGranted(rewards, LevelOf(xp), LevelOf(xp));
    } else {
      var next, end := xp + awards[0], Total(xp, awards);
      EachRewardOnce(rewards, next, awards[1..]);
      TotalGrows(next, awards[1..]);
      LevelMonotone(xp, next);
      LevelMonotone(next, end);
      GrantsSplit(rewards, LevelOf(xp), LevelOf(next), LevelOf(end));
    }
  }

  /** Read off the configuration: a run of awards hands out each reward as often as it is
      configured if the level passed from below it to at least it, and never otherwise. */
  lemma RewardsHandedOut(rewards: seq<Reward>, xp: int, awards: seq<nat>, r: Reward)
    requires xp >= 0
    ensures multiset(GrantedOver(rewards, xp, awards))[r]
            == if LevelOf(xp) < r.level <= LevelOf(Total(xp, awards)) then multiset(rewards)[r] else 0
  {
    EachRewardOnce(rewards, xp, awards);
    GrantedCounts(rewards, LevelOf(xp), LevelOf(Total(xp, awards)), r);
  }
}
