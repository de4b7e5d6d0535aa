/**
 Redeeming premium tokens. `premium activate` makes four database calls; any number
 of redemptions interleave between calls, and each call may fail.
 */
module Premium {
  import opened Base

  type User = nat
  type TokenId = nat
  type Pid = nat

  datatype Token = Token(level: int, redeemed: bool, owner: Option<User>)

  /** Where a redemption stands: the calls still to come are the row read, the burn,
      the level read and the level write. */
  datatype Phase =
    | ReadingRow
    | Burning(level: int)
    | ReadingLevel(level: int)
    | WritingLevel(newLevel: int)
    | Finished

  datatype Process = Process(token: TokenId, user: User, phase: Phase)

  /** A successful burn, in the history of all of them. */
  datatype Burn = Burn(token: TokenId, user: User, level: int)

  datatype State = State(tokens: map<TokenId, Token>, levels: map<User, int>,
                         processes: map<Pid, Process>, burns: seq<Burn>)

  datatype Step =
    | Generate(token: TokenId, level: int)
    | Begin(pid: Pid, token: TokenId, user: User)
    | Advance(pid: Pid, dbOk: bool)

  function LevelOf(levels: map<User, int>, u: User): int {
    if u in levels then levels[u] else 0
  }

  function At(s: State, pid: Pid, phase: Phase): State
    requires pid in s.processes
  {
    s.(processes := s.processes[pid := s.processes[pid].(phase := phase)])
  }

  /** One database call of one redemption. */
  function Call(s: State, pid: Pid, dbOk: bool): State
    requires pid in s.processes
  {
    var Process(token, user, phase) := s.processes[pid];
    match phase
    case ReadingRow =>
      if dbOk && token in s.tokens && !s.tokens[token].redeemed
      then At(s, pid, Burning(s.tokens[token].level)) else At(s, pid, Finished)
    case Burning(level) =>
      // Update where the token matches and is not yet redeemed; one row affected.
      if dbOk && token in s.tokens && !s.tokens[token].redeemed
      then At(s, pid, ReadingLevel(level))
             .(tokens := s.tokens[token := s.tokens[token].(redeemed := true, owner := Some(user))],
               burns := s.burns + [Burn(token, user, level)])
      else At(s, pid, Finished)
    case ReadingLevel(level) =>
      At(s, pid, WritingLevel(Max(level, if dbOk then LevelOf(s.levels, user) else 0)))
    case WritingLevel(n) =>
      At(s, pid, Finished).(levels := if dbOk then s.levels[user := n] else s.levels)
    case Finished => s
  }

  function Next(s: State, step: Step): State {
    match step
    case Generate(token, level) =>
      if token in s.tokens || !(1 <= level <= 3) then s
      else s.(tokens := s.tokens[token := Token(level, false, None)])
    case Begin(pid, token, user) =>
      if pid in s.processes then s
      else s.(processes := s.processes[pid := Process(token, user, ReadingRow)])
    case Advance(pid, dbOk) => if pid in s.processes then Call(s, pid, dbOk) else s
  }

  function Run(s: State, steps: seq<Step>): State
    decreases steps
  {
    if steps == [] then s else Run(Next(s, steps[0]), steps[1..])
  }

  // ---- safety under any interleaving --------------------------------------

  function BurnsOf(burns: seq<Burn>, token: TokenId): nat {
    if burns == [] then 0
    else BurnsOf(burns[..|burns| - 1], token) + if burns[|burns| - 1].token == token then 1 else 0
  }

  /** A level `u` may come to hold: the one they started with, or that of a token
      they burned. */
  ghost predicate Earned(start: map<User, int>, burns: seq<Burn>, u: User, level: int) {
    (u in start && start[u] == level) || exists b | b in burns :: b.user == u && b.level == level
  }

  ghost predicate ProcessSound(start: map<User, int>, s: State, p: Process) {
    match p.phase
    case Burning(level) => p.token in s.tokens && s.tokens[p.token].level == level
    case ReadingLevel(level) => level >= 0 && exists b | b in s.burns :: b.user == p.user && b.level == level
    case WritingLevel(n) => Earned(start, s.burns, p.user, n)
    case _ => true
  }

  /** Every burn is of a token that is marked so, owned by its burner, at its level, once. */
  ghost predicate BurnsSound(s: State) {
    && (forall t | t in s.tokens :: s.tokens[t].level >= 0)
    && (forall b | b in s.burns ::
          b.token in s.tokens && s.tokens[b.token].redeemed && s.tokens[b.token].owner == Some(b.user)
          && s.tokens[b.token].level == b.level)
    && (forall t: TokenId :: BurnsOf(s.burns, t) <= 1)
    && (forall t: TokenId | t !in s.tokens || !s.tokens[t].redeemed :: BurnsOf(s.burns, t) == 0)
  }

  ghost predicate ProcessesSound(start: map<User, int>, s: State) {
    forall pid | pid in s.processes :: ProcessSound(start, s, s.processes[pid])
  }

  ghost predicate LevelsEarned(start: map<User, int>, s: State) {
    forall u | u in s.levels :: Earned(start, s.burns, u, s.levels[u])
  }

  ghost predicate Inv(start: map<User, int>, s: State) {
    BurnsSound(s) && ProcessesSound(start, s) && LevelsEarned(start, s)
  }

  lemma BurnAppend(burns: seq<Burn>, b: Burn)
    ensures forall t: TokenId :: BurnsOf(burns + [b], t) == BurnsOf(burns, t) + if b.token == t then 1 else 0
    ensures forall x | x in burns :: x in burns + [b]
    ensures b in burns + [b]
  {
    assert (burns + [b])[..|burns|] == burns;
  }

  /** More burns and unchanged token levels keep every redemption sound. */
  lemma SoundGrows(start: map<User, int>, s: State, s': State, p: Process)
    requires ProcessSound(start, s, p)
    requires forall b | b in s.burns :: b in s'.burns
    requires forall t | t in s.tokens :: t in s'.tokens && s'.tokens[t].level == s.tokens[t].level
    ensures ProcessSound(start, s', p)
  {
  }

  lemma BurnKeepsSound(start: map<User, int>, s: State, pid: Pid, q: Pid)
    requires Inv(start, s) && pid in s.processes && s.processes[pid].phase.Burning? && q in s.processes
    ensures var s' := Call(s, pid, true);
            q in s'.processes && ProcessSound(start, s', s'.processes[q])
  {
    hide BurnsOf;
    var Process(token, user, phase) := s.processes[pid];
    var s' := Call(s, pid, true);
    assert ProcessSound(start, s, s.processes[pid]) && ProcessSound(start, s, s.processes[q]);
    if !s.tokens[token].redeemed {
      var b := Burn(token, user, phase.level);
      assert b in s'.burns && b.user == user && b.level == phase.level;
      if q != pid {
        SoundGrows(start, s, s', s.processes[q]);
      }
    }
  }

  lemma BurnKeepsBurns(start: map<User, int>, s: State, pid: Pid)
    requires BurnsSound(s) && pid in s.processes && s.processes[pid].phase.Burning?
    requires ProcessSound(start, s, s.processes[pid])
    ensures BurnsSound(Call(s, pid, true))
  {
    var Process(token, user, phase) := s.processes[pid];
    if !s.tokens[token].redeemed {
      BurnAppend(s.burns, Burn(token, user, phase.level));
    }
    hide BurnsOf;
  }

  lemma BurnKeepsProcesses(start: map<User, int>, s: State, pid: Pid)
    requires Inv(start, s) && pid in s.processes && s.processes[pid].phase.Burning?
    ensures ProcessesSound(start, Call(s, pid, true))
  {
    hide BurnsSound, LevelsEarned;
    var s' := Call(s, pid, true);
    forall q | q in s'.processes ensures ProcessSound(start, s', s'.processes[q]) {
      BurnKeepsSound(start, s, pid, q);
    }
    hide ProcessSound, Call;
  }

  lemma BurnKeepsLevels(start: map<User, int>, s: State, pid: Pid)
    requires LevelsEarned(start, s) && pid in s.processes && s.processes[pid].phase.Burning?
    ensures LevelsEarned(start, Call(s, pid, true))
  {
    var s' := Call(s, pid, true);
    assert s'.levels == s.levels && forall b | b in s.burns :: b in s'.burns;
    hide Call;
  }

  /** Every other call leaves tokens and burns alone, and makes one process a little further. */
  lemma OtherCallKeepsInv(start: map<User, int>, s: State, pid: Pid, dbOk: bool)
    requires Inv(start, s) && pid in s.processes && !(s.processes[pid].phase.Burning? && dbOk)
    ensures Inv(start, Call(s, pid, dbOk))
  {
    var s' := Call(s, pid, dbOk);
    assert s'.tokens == s.tokens && s'.burns == s.burns;
    assert BurnsSound(s') by { hide ProcessSound, BurnsOf; }
    assert ProcessSound(start, s, s.processes[pid]);
    hide BurnsOf;
    forall q | q in s'.processes ensures ProcessSound(start, s', s'.processes[q]) {
      if q == pid {
        AdvancedIsSound(start, s, pid, dbOk);
      } else {
        SoundGrows(start, s, s', s.processes[q]);
      }
    }
    assert LevelsEarned(start, s');
    hide ProcessSound, Call;
  }

  lemma AdvancedIsSound(start: map<User, int>, s: State, pid: Pid, dbOk: bool)
    requires Inv(start, s) && pid in s.processes && !(s.processes[pid].phase.Burning? && dbOk)
    ensures var s' := Call(s, pid, dbOk); pid in s'.processes && ProcessSound(start, s', s'.processes[pid])
  {
    hide BurnsOf;
    assert ProcessSound(start, s, s.processes[pid]);
  }

  lemma CallKeepsInv(start: map<User, int>, s: State, pid: Pid, dbOk: bool)
    requires Inv(start, s) && pid in s.processes
    ensures Inv(start, Call(s, pid, dbOk))
  {
    if s.processes[pid].phase.Burning? && dbOk {
      assert ProcessSound(start, s, s.processes[pid]);
      BurnKeepsBurns(start, s, pid);
      BurnKeepsProcesses(start, s, pid);
      BurnKeepsLevels(start, s, pid);
    } else {
      OtherCallKeepsInv(start, s, pid, dbOk);
    }
    hide BurnsSound, ProcessesSound, LevelsEarned, Call, ProcessSound;
  }

  lemma StepKeepsInv(start: map<User, int>, s: State, step: Step)
    requires Inv(start, s)
    ensures Inv(start, Next(s, step))
  {
    match step
    case Generate(token, level) =>
      var s' := Next(s, step);
      forall q | q in s'.processes ensures ProcessSound(start, s', s'.processes[q]) {
        SoundGrows(start, s, s', s.processes[q]);
      }
    case Begin(_, _, _) =>
    case Advance(pid, dbOk) => if pid in s.processes { CallKeepsInv(start, s, pid, dbOk); }
  }

  lemma {:induction false} RunKeepsInv(start: map<User, int>, s: State, steps: seq<Step>)
    requires Inv(start, s)
    ensures Inv(start, Run(s, steps))
    decreases steps
  {
    if steps != [] {
      hide Inv, Next;
      StepKeepsInv(start, s, steps[0]);
      RunKeepsInv(start, Next(s, steps[0]), steps[1..]);
    }
  }

  function Idle(tokens: map<TokenId, Token>, levels: map<User, int>): State {
    State(tokens, levels, map[], [])
  }

  /** For any number of redemptions, interleaved and failing in any way: a token is
      burned at most once, by the user recorded as its owner, and every stored level
      is the user's initial one or the level of a token that user burned. */
  lemma RedemptionIsSafe(tokens: map<TokenId, Token>, levels: map<User, int>, steps: seq<Step>)
    requires forall t | t in tokens :: tokens[t].level >= 0
    ensures var s := Run(Idle(tokens, levels), steps);
            && (forall t: TokenId :: BurnsOf(s.burns, t) <= 1)
            && (forall b | b in s.burns ::
                  b.token in s.tokens && s.tokens[b.token].redeemed && s.tokens[b.token].owner == Some(b.user))
            && (forall u | u in s.levels :: Earned(levels, s.burns, u, s.levels[u]))
  {
    assert Inv(levels, Idle(tokens, levels));
    RunKeepsInv(levels, Idle(tokens, levels), steps);
  }

  // ---- redemptions of one user that do not overlap ------------------------

  predicate Busy(s: State, u: User, pid: Pid) {
    pid in s.processes && s.processes[pid].user == u && s.processes[pid].phase != Finished
  }

  ghost predicate AtMostOne(s: State, u: User) {
    forall p, q | Busy(s, u, p) && Busy(s, u, q) :: p == q
  }

  /** What `u` is about to have written is no less than what is stored. */
  ghost predicate WritesUp(s: State, u: User) {
    forall p | Busy(s, u, p) && s.processes[p].phase.WritingLevel? ::
      s.processes[p].phase.newLevel >= LevelOf(s.levels, u)
  }

  /** `u` starts a redemption only when no other of theirs is running, and reads of
      their level succeed. */
  ghost predicate Orderly(s: State, step: Step, u: User) {
    match step
    case Begin(_, _, user) => user == u ==> forall p: Pid :: !Busy(s, u, p)
    case Advance(pid, dbOk) => Busy(s, u, pid) && s.processes[pid].phase.ReadingLevel? ==> dbOk
    case _ => true
  }

  ghost predicate OrderlyRun(s: State, steps: seq<Step>, u: User)
    decreases steps
  {
    steps != [] ==> Orderly(s, steps[0], u) && OrderlyRun(Next(s, steps[0]), steps[1..], u)
  }

  /** A call changes its own process only, and the level of that process's user. */
  lemma CallIsLocal(s: State, pid: Pid, dbOk: bool, q: Pid, u: User)
    requires pid in s.processes
    ensures var s' := Call(s, pid, dbOk);
            && (q != pid ==> (q in s'.processes <==> q in s.processes) && (q in s.processes ==> s'.processes[q] == s.processes[q]))
            && pid in s'.processes && s'.processes[pid].user == s.processes[pid].user
            && (s.processes[pid].phase == Finished ==> s' == s)
            && (u != s.processes[pid].user ==> LevelOf(s'.levels, u) == LevelOf(s.levels, u))
  {
  }

  lemma OrderlyCall(s: State, pid: Pid, dbOk: bool, u: User)
    requires AtMostOne(s, u) && WritesUp(s, u) && Orderly(s, Advance(pid, dbOk), u) && pid in s.processes
    ensures var s' := Call(s, pid, dbOk);
            AtMostOne(s', u) && WritesUp(s', u) && LevelOf(s'.levels, u) >= LevelOf(s.levels, u)
  {
    var s' := Call(s, pid, dbOk);
    assert LevelOf(s'.levels, u) >= LevelOf(s.levels, u) by {
      if s.processes[pid].user == u && s.processes[pid].phase.WritingLevel? {
        assert Busy(s, u, pid);
      }
    }
    assert Busy(s', u, pid) && s'.processes[pid].phase.WritingLevel? ==>
             s'.processes[pid].phase.newLevel >= LevelOf(s'.levels, u) by {
      if s.processes[pid].user == u && s.processes[pid].phase.ReadingLevel? {
        assert Busy(s, u, pid);
      }
    }
    forall q ensures Busy(s', u, q) ==> Busy(s, u, q) && (q != pid ==> s'.processes[q] == s.processes[q]) {
      CallIsLocal(s, pid, dbOk, q, u);
    }
    if s.processes[pid].user != u {
      CallIsLocal(s, pid, dbOk, pid, u);
    } else if s.processes[pid].phase == Finished {
      assert s' == s;
    } else {
      assert Busy(s, u, pid);
    }
    hide Call;
  }

  lemma OrderlyStep(s: State, step: Step, u: User)
    requires AtMostOne(s, u) && WritesUp(s, u) && Orderly(s, step, u)
    ensures var s' := Next(s, step);
            AtMostOne(s', u) && WritesUp(s', u) && LevelOf(s'.levels, u) >= LevelOf(s.levels, u)
  {
    if step.Advance? {
      if step.pid in s.processes { OrderlyCall(s, step.pid, step.dbOk, u); }
      hide Call, AtMostOne, WritesUp, Orderly;
    } else {
      var s' := Next(s, step);
      forall p | Busy(s', u, p) ensures Busy(s, u, p) || (step.Begin? && step.pid == p && step.user == u) {
      }
    }
  }

  /** One user's redemptions, one after the other, never lower the stored level. */
  lemma {:induction false} LevelNeverDrops(s: State, steps: seq<Step>, u: User)
    requires AtMostOne(s, u) && WritesUp(s, u) && OrderlyRun(s, steps, u)
    ensures LevelOf(Run(s, steps).levels, u) >= LevelOf(s.levels, u)
    decreases steps
  {
    if steps != [] {
      hide AtMostOne, WritesUp, Orderly, Next;
      OrderlyStep(s, steps[0], u);
      LevelNeverDrops(Next(s, steps[0]), steps[1..], u);
    }
  }

  lemma {:induction false} RunPush(s: State, steps: seq<Step>, step: Step)
    ensures Run(s, steps + [step]) == Next(Run(s, steps), step)
    decreases |steps|
  {
    if steps == [] {
      assert [] + [step] == [step] && [step][1..] == [];
    } else {
      hide Next;
      assert (steps + [step])[1..] == steps[1..] + [step];
      RunPush(Next(s, steps[0]), steps[1..], step);
    }
  }

  /** User 5 redeems a level 3 token and a level 1 token at once. */
  function TwoTokens(): State {
    Idle(map[10 := Token(3, false, None), 11 := Token(1, false, None)], map[])
  }

  const BOTH_BURN: seq<Step> := [Begin(0, 10, 5), Begin(1, 11, 5), Advance(0, true), Advance(1, true),
                                Advance(0, true), Advance(1, true)]

  /** Both tokens are burned, and neither level read yet. */
  function BothBurned(): State {
    State(map[10 := Token(3, true, Some(5)), 11 := Token(1, true, Some(5))], map[],
          map[0 := Process(10, 5, ReadingLevel(3)), 1 := Process(11, 5, ReadingLevel(1))],
          [Burn(10, 5, 3), Burn(11, 5, 1)])
  }

  lemma BothBurnedIsReached()
    ensures Run(TwoTokens(), BOTH_BURN) == BothBurned()
  {
    var s0 := TwoTokens();
    var s1 := Next(s0, Begin(0, 10, 5));
    assert s1.processes == map[0 := Process(10, 5, ReadingRow)];
    var s2 := Next(s1, Begin(1, 11, 5));
    assert s2.processes == map[0 := Process(10, 5, ReadingRow), 1 := Process(11, 5, ReadingRow)];
    var s3 := Next(s2, Advance(0, true));
    assert s3.processes == map[0 := Process(10, 5, Burning(3)), 1 := Process(11, 5, ReadingRow)];
    var s4 := Next(s3, Advance(1, true));
    assert s4 == s0.(processes := map[0 := Process(10, 5, Burning(3)), 1 := Process(11, 5, Burning(1))]);
    FromBurning(s4);
    hide Next;
    RunSix(s0, Begin(0, 10, 5), Begin(1, 11, 5), Advance(0, true), Advance(1, true), Advance(0, true), Advance(1, true));
  }

  lemma FromBurning(s: State)
    requires s == TwoTokens().(processes := map[0 := Process(10, 5, Burning(3)), 1 := Process(11, 5, Burning(1))])
    ensures Next(Next(s, Advance(0, true)), Advance(1, true)) == BothBurned()
  {
    var a := Next(s, Advance(0, true));
    assert a.processes == map[0 := Process(10, 5, ReadingLevel(3)), 1 := Process(11, 5, Burning(1))];
    assert a.tokens == map[10 := Token(3, true, Some(5)), 11 := Token(1, false, None)];
    assert a.burns == [Burn(10, 5, 3)];
    var b := Next(a, Advance(1, true));
    assert b.processes == BothBurned().processes && b.tokens == BothBurned().tokens;
    assert b.burns == [Burn(10, 5, 3)] + [Burn(11, 5, 1)] == [Burn(10, 5, 3), Burn(11, 5, 1)];
  }

  lemma RunSix(s: State, a: Step, b: Step, c: Step, d: Step, e: Step, f: Step)
    ensures Run(s, [a, b, c, d, e, f]) == Next(Next(Next(Next(Next(Next(s, a), b), c), d), e), f)
  {
    hide Next;
    assert [a, b, c, d, e, f] == [a, b, c, d, e] + [f];
    RunPush(s, [a, b, c, d, e], f);
    RunFive(s, a, b, c, d, e);
  }

  /** Two overlapping redemptions can: both read level 0, 3 is written, then 1. */
  lemma OverlapDrops()
    ensures var before := Run(TwoTokens(), BOTH_BURN + [Advance(0, true), Advance(1, true), Advance(0, true)]);
            LevelOf(before.levels, 5) == 3 && LevelOf(Next(before, Advance(1, true)).levels, 5) == 1
  {
    hide *;
    BothBurnedIsReached();
    StaleWrites();
    RunPush(TwoTokens(), BOTH_BURN, Advance(0, true));
    RunPush(TwoTokens(), BOTH_BURN + [Advance(0, true)], Advance(1, true));
    RunPush(TwoTokens(), BOTH_BURN + [Advance(0, true)] + [Advance(1, true)], Advance(0, true));
    assert BOTH_BURN + [Advance(0, true), Advance(1, true), Advance(0, true)]
           == BOTH_BURN + [Advance(0, true)] + [Advance(1, true)] + [Advance(0, true)];
  }

  lemma StaleWrites()
    ensures var before := Next(Next(Next(BothBurned(), Advance(0, true)), Advance(1, true)), Advance(0, true));
            LevelOf(before.levels, 5) == 3 && LevelOf(Next(before, Advance(1, true)).levels, 5) == 1
  {
    var b := Next(BothBurned(), Advance(0, true));
    assert b.processes == map[0 := Process(10, 5, WritingLevel(3)), 1 := Process(11, 5, ReadingLevel(1))];
    var c := Next(b, Advance(1, true));
    assert c.processes == map[0 := Process(10, 5, WritingLevel(3)), 1 := Process(11, 5, WritingLevel(1))];
    assert c.levels == map[];
  }

  lemma {:induction false} OthersLeave(s: State, steps: seq<Step>, pid: Pid)
    requires pid in s.processes && forall st | st in steps :: st.Advance? ==> st.pid != pid
    ensures pid in Run(s, steps).processes && Run(s, steps).processes[pid] == s.processes[pid]
    decreases steps
  {
    if steps != [] {
      assert steps[0] in steps;
      OthersLeave(Next(s, steps[0]), steps[1..], pid);
    }
  }

  /** The level a step stores for `u`, if it does. */
  function Writes(s: State, step: Step, u: User): Option<int> {
    if step.Advance? && step.dbOk && step.pid in s.processes && s.processes[step.pid].user == u
       && s.processes[step.pid].phase.WritingLevel?
    then Some(s.processes[step.pid].phase.newLevel) else None
  }

  /** The last level stored for `u` along a run. */
  function LastWrite(s: State, steps: seq<Step>, u: User): Option<int>
    decreases |steps|
  {
    if steps == [] then None
    else
      var later := LastWrite(Next(s, steps[0]), steps[1..], u);
      if later.Some? then later else Writes(s, steps[0], u)
  }

  predicate SomeWriteAbove(s: State, steps: seq<Step>, u: User, m: int)
    decreases |steps|
  {
    steps != [] &&
    ((Writes(s, steps[0], u).Some? && Writes(s, steps[0], u).value > m)
     || SomeWriteAbove(Next(s, steps[0]), steps[1..], u, m))
  }

  /** The level of `u` is above `m` at some point of the run. */
  predicate StandsAbove(s: State, steps: seq<Step>, u: User, m: int)
    decreases |steps|
  {
    LevelOf(s.levels, u) > m || (steps != [] && StandsAbove(Next(s, steps[0]), steps[1..], u, m))
  }

  lemma LevelAfterStep(s: State, step: Step, u: User)
    ensures LevelOf(Next(s, step).levels, u) == Writes(s, step, u).GetOr(LevelOf(s.levels, u))
  {
  }

  lemma {:induction false} LevelIsLastWrite(s: State, steps: seq<Step>, u: User)
    ensures LevelOf(Run(s, steps).levels, u) == LastWrite(s, steps, u).GetOr(LevelOf(s.levels, u))
    decreases |steps|
  {
    if steps != [] {
      hide Next, LevelOf, Writes;
      LevelAfterStep(s, steps[0], u);
      LevelIsLastWrite(Next(s, steps[0]), steps[1..], u);
    }
  }

  lemma {:induction false} AboveByWrite(s: State, steps: seq<Step>, u: User, m: int)
    requires LevelOf(s.levels, u) <= m
    ensures StandsAbove(s, steps, u, m) <==> SomeWriteAbove(s, steps, u, m)
    decreases |steps|
  {
    if steps != [] {
      hide Next, LevelOf, Writes;
      LevelAfterStep(s, steps[0], u);
      if LevelOf(Next(s, steps[0]).levels, u) <= m {
        AboveByWrite(Next(s, steps[0]), steps[1..], u, m);
      }
    }
  }

  /** Between a redemption's read of the level, which may fail, and its write, others may do
      anything. The write stores the maximum of the token's level and what was read, so the
      user's level falls below where it stood at the read or at some point since exactly if
      it stood above that maximum already, or another redemption of theirs stored more; and
      the write itself lowers it exactly if the last of those did, or none did and the read
      had failed to see more. */
  lemma StaleWriteDropsIff(s: State, pid: Pid, level: int, readOk: bool, steps: seq<Step>)
    requires pid in s.processes && s.processes[pid].phase == ReadingLevel(level)
    requires forall st | st in steps :: st.Advance? ==> st.pid != pid
    ensures var u := s.processes[pid].user;
            var m := Max(level, if readOk then LevelOf(s.levels, u) else 0);
            var read := Next(s, Advance(pid, readOk));
            var before := Run(read, steps);
            var after := Next(before, Advance(pid, true));
            && LevelOf(after.levels, u) == m
            && (StandsAbove(read, steps, u, m) <==> LevelOf(s.levels, u) > m || SomeWriteAbove(read, steps, u, m))
            && (LevelOf(after.levels, u) < LevelOf(before.levels, u) <==>
                  LastWrite(read, steps, u).GetOr(LevelOf(s.levels, u)) > m)
  {
    var u, read := s.processes[pid].user, Next(s, Advance(pid, readOk));
    var m := Max(level, if readOk then LevelOf(s.levels, u) else 0);
    var before := Run(read, steps);
    OthersLeave(read, steps, pid);
    assert LevelOf(read.levels, u) == LevelOf(s.levels, u);
    assert read.processes[pid].phase == WritingLevel(m) && read.processes[pid].user == u;
    LevelAfterStep(before, Advance(pid, true), u);
    LevelIsLastWrite(read, steps, u);
    if LevelOf(s.levels, u) <= m {
      AboveByWrite(read, steps, u, m);
    }
    hide Run, Next, LastWrite, SomeWriteAbove, LevelOf;
  }

  // ---- the command --------------------------------------------------------

  class PremiumCog {
    var tokens: map<TokenId, Token>
    var levels: map<User, int>

    /** `premium activate`, undisturbed: the four calls in a row. */
    method Activate(token: TokenId, user: User, rowOk: bool, burnOk: bool, levelOk: bool, writeOk: bool)
      returns (activated: bool)
      modifies this
      ensures var s := Run(Idle(old(tokens), old(levels)), Alone(token, user, rowOk, burnOk, levelOk, writeOk));
              tokens == s.tokens && levels == s.levels && activated == (s.burns != [])
    {
      ghost var s0 := Next(Idle(tokens, levels), Begin(0, token, user));
      ghost var s1 := Next(s0, Advance(0, rowOk));
      ghost var s2 := Next(s1, Advance(0, burnOk));
      ghost var s3 := Next(s2, Advance(0, levelOk));
      RunFive(Idle(tokens, levels), Begin(0, token, user), Advance(0, rowOk), Advance(0, burnOk),
              Advance(0, levelOk), Advance(0, writeOk));
      if !rowOk || token !in tokens || tokens[token].redeemed {
        assert s3 == s1;
        return false;
      }
      var level := tokens[token].level;
      if !burnOk {
        assert s3 == s2;
        return false;
      }
      tokens := tokens[token := tokens[token].(redeemed := true, owner := Some(user))];
      var existing := if levelOk then LevelOf(levels, user) else 0;
      assert s3.processes[0].phase == WritingLevel(Max(level, existing));
      if writeOk {
        levels := levels[user := Max(level, existing)];
      }
      return true;
    }
  }

  lemma RunFive(s: State, a: Step, b: Step, c: Step, d: Step, e: Step)
    ensures Run(s, [a, b, c, d, e]) == Next(Next(Next(Next(Next(s, a), b), c), d), e)
  {
    hide Next;
    assert [a, b, c, d, e][1..] == [b, c, d, e];
    assert [b, c, d, e][1..] == [c, d, e];
    assert [c, d, e][1..] == [d, e];
    assert [d, e][1..] == [e];
    assert Run(Next(s, a), [b, c, d, e]) == Run(Next(Next(s, a), b), [c, d, e]);
    assert Run(Next(Next(Next(s, a), b), c), [d, e]) == Run(Next(Next(Next(Next(s, a), b), c), d), [e]);
  }

  function Alone(token: TokenId, user: User, rowOk: bool, burnOk: bool, levelOk: bool, writeOk: bool): seq<Step> {
    [Begin(0, token, user), Advance(0, rowOk), Advance(0, burnOk), Advance(0, levelOk), Advance(0, writeOk)]
  }

  lemma FinishedStays(s: State, a: bool, b: bool)
    requires 0 in s.processes && s.processes[0].phase == Finished
    ensures Next(Next(s, Advance(0, a)), Advance(0, b)) == s
  {
  }

  /** What one redemption by itself stores: the token is burned exactly when it is there, not
      redeemed yet, and both calls on it go through; the level follows if it is. */
  lemma AloneStores(tokens: map<TokenId, Token>, levels: map<User, int>, token: TokenId, user: User,
                    rowOk: bool, burnOk: bool, levelOk: bool, writeOk: bool)
    ensures var s := Run(Idle(tokens, levels), Alone(token, user, rowOk, burnOk, levelOk, writeOk));
            if rowOk && burnOk && token in tokens && !tokens[token].redeemed
            then
              && s.tokens == tokens[token := Token(tokens[token].level, true, Some(user))]
              && s.levels == (if writeOk
                              then levels[user := Max(tokens[token].level, if levelOk then LevelOf(levels, user) else 0)]
                              else levels)
            else s.tokens == tokens && s.levels == levels
  {
    var s0 := Next(Idle(tokens, levels), Begin(0, token, user));
    var s1 := Next(s0, Advance(0, rowOk));
    var s2 := Next(s1, Advance(0, burnOk));
    RunFive(Idle(tokens, levels), Begin(0, token, user), Advance(0, rowOk), Advance(0, burnOk),
            Advance(0, levelOk), Advance(0, writeOk));
    hide Run;
    if rowOk && token in tokens && !tokens[token].redeemed && burnOk {
      assert s2.processes[0] == Process(token, user, ReadingLevel(tokens[token].level)) && s2.levels == levels;
    } else {
      assert s2.processes[0].phase == Finished && s2.levels == levels;
      FinishedStays(s2, levelOk, writeOk);
    }
  }

  /** One redemption by itself lowers its user's level exactly when everything succeeds but
      the read of that level, and the token is worth less than it. */
  lemma AloneDropsIff(tokens: map<TokenId, Token>, levels: map<User, int>, token: TokenId, user: User,
                      rowOk: bool, burnOk: bool, levelOk: bool, writeOk: bool)
    requires forall u | u in levels :: levels[u] >= 0
    requires forall t | t in tokens :: tokens[t].level >= 0
    ensures var s := Run(Idle(tokens, levels), Alone(token, user, rowOk, burnOk, levelOk, writeOk));
            LevelOf(s.levels, user) < LevelOf(levels, user) <==>
              && rowOk && burnOk && writeOk && !levelOk
              && token in tokens && !tokens[token].redeemed && tokens[token].level < LevelOf(levels, user)
  {
    AloneStores(tokens, levels, token, user, rowOk, burnOk, levelOk, writeOk);
    hide Run;
  }
}
