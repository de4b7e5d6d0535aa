/** Warn escalation: how many active warns a run of moderation steps leaves. */
module Escalation {
  import opened Base
  import opened Moderation

  function WarnsOf(steps: seq<Step>, u: User): nat {
    if steps == [] then 0
    else (if steps[0].DoWarn? && steps[0].user == u then 1 else 0) + WarnsOf(steps[1..], u)
  }

  ghost function Active(s: State, u: User): nat {
    |ActiveWarns(s.cases, u)|
  }

  lemma AddedCaseWarns(cases: map<nat, Case>, n: nat, c: Case, u: User)
    requires n !in cases
    ensures |ActiveWarns(cases[n := c], u)|
            == |ActiveWarns(cases, u)| + if c.kind == Warn && c.target == u && c.active then 1 else 0
  {
    var before, after := ActiveWarns(cases, u), ActiveWarns(cases[n := c], u);
    assert n !in before;
    if c.kind == Warn && c.target == u && c.active {
      assert after == before + {n};
    } else {
      assert after == before;
    }
  }

  lemma NewCaseWarns(s: State, kind: Kind, target: User, expires: Option<int>, u: User)
    ensures Active(NewCase(s, kind, target, expires), u) == Active(s, u) + if kind == Warn && target == u then 1 else 0
  {
    hide NextNumber, ActiveWarns;
    AddedCaseWarns(s.cases, NextNumber(s.cases.Keys), Case(kind, target, true, expires), u);
  }

  lemma ResetZeroes(cases: map<nat, Case>, target: User, u: User)
    ensures ActiveWarns(ResetWarns(cases, target), u) == if u == target then {} else ActiveWarns(cases, u)
  {
  }

  lemma PunishIsNoWarn(s: State, target: User, punishment: Punishment, u: User)
    ensures Active(Punish(s, target, punishment), u) == Active(s, u)
  {
    hide Active, NewCase;
    match punishment
    case ToKick => NewCaseWarns(s, Kick, target, None, u);
    case ToBan => NewCaseWarns(s, Ban, target, None, u); SameCases(NewCase(s, Ban, target, None), Punish(s, target, ToBan), u);
    case ToTimeout(secs) =>
      NewCaseWarns(s, Timeout, target, Some(s.now + Clamp(secs)), u);
      SameCases(NewCase(s, Timeout, target, Some(s.now + Clamp(secs))), Punish(s, target, punishment), u);
  }

  lemma SameCases(a: State, b: State, u: User)
    requires a.cases == b.cases
    ensures Active(a, u) == Active(b, u)
  {
  }

  lemma WarnedCounts(s: State, target: User, db: WarnDb, u: User)
    ensures Active(Warned(s, target, db), u) == Active(s, u) + if db.caseOk && target == u then 1 else 0
    ensures Warned(s, target, db).escalations == s.escalations
  {
    NewCaseWarns(s, Warn, target, None, u);
    hide Active;
  }

  /** Whether a warn sets off the punishment. */
  ghost predicate Triggers(s: State, u: User, policy: Policy, landed: bool, db: WarnDb) {
    db.readOk && policy.threshold > 0 && Active(s, u) + (if db.caseOk then 1 else 0) >= policy.threshold && landed
  }

  /** One warn: the count goes up by one if the case is written, and back to zero with one
      more escalation if that is set off and the reset goes through. */
  lemma WarnCounts(s: State, target: User, policy: Policy, landed: bool, db: WarnDb, u: User)
    ensures var s', more := Next(s, DoWarn(target, policy, landed, db)), if db.caseOk then 1 else 0;
            if target != u then Active(s', u) == Active(s, u) && Tally(s'.escalations, u) == Tally(s.escalations, u)
            else
              && Tally(s'.escalations, u) == Tally(s.escalations, u) + (if Triggers(s, u, policy, landed, db) then 1 else 0)
              && Active(s', u) == if Triggers(s, u, policy, landed, db) && db.resetOk then 0 else Active(s, u) + more
  {
    hide NextNumber, Punish, ResetWarns, ActiveWarns, Warned;
    WarnedCounts(s, target, db, target);
    WarnedCounts(s, target, db, u);
    var warned := Warned(s, target, db);
    PunishIsNoWarn(warned, target, policy.punishment, u);
    ResetZeroes(Punish(warned, target, policy.punishment).cases, target, u);
  }

  /** Every other step that deletes nothing leaves active warns and escalations alone. */
  lemma OtherStepCounts(s: State, step: Step, u: User)
    requires Inv(s) && !step.DoWarn? && !step.DeleteCase?
    ensures Active(Next(s, step), u) == Active(s, u)
    ensures Next(s, step).escalations == s.escalations
  {
    if step.Sweep? {
      SweepCounts(s, step.outcome, u);
    } else if step.DoTempBan? {
      NewCaseWarns(s, TempBan, step.user, Some(step.expires), u);
      hide ActiveWarns, Inv, NextNumber;
    } else if step.DoTimed? {
      NewCaseWarns(s, KindOf(step.lift), step.user, Some(step.expires), u);
      hide ActiveWarns, Inv, NextNumber;
    } else if step.DoUntimed? {
      UntimedCounts(s, step.lift, step.user, step.apiOk, u);
    } else if step.DoBan? {
      NewCaseWarns(s, Ban, step.user, None, u);
      hide ActiveWarns, Inv, NextNumber;
    } else {
      hide ActiveWarns, Inv;
    }
  }

  lemma UntimedCounts(s: State, lift: Lift, v: User, apiOk: bool, u: User)
    ensures Active(Next(s, DoUntimed(lift, v, apiOk)), u) == Active(s, u)
    ensures Next(s, DoUntimed(lift, v, apiOk)).escalations == s.escalations
  {
    hide NextNumber, ActiveWarns;
    var kind := if lift == LiftBan then Unban else if lift == LiftMute then Unmute else Untimeout;
    AddedCaseWarns(s.cases, NextNumber(s.cases.Keys), Case(kind, v, true, None), u);
  }

  lemma SweepCounts(s: State, outcome: Outcome, u: User)
    requires Inv(s)
    ensures Active(Next(s, Sweep(outcome)), u) == Active(s, u)
    ensures Next(s, Sweep(outcome)).escalations == s.escalations
  {
    if s.queue != [] {
      assert s.queue[0] in s.queue;
      hide RowsMatchCases, NobodyStranded;
      assert ActiveWarns(Next(s, Sweep(outcome)).cases, u) == ActiveWarns(s.cases, u);
    }
  }

  /** What the accounting asks of one step. */
  ghost predicate Accountable(step: Step, u: User, threshold: nat) {
    && !step.DeleteCase?
    && Written(step)
    && (step.DoWarn? && step.user == u ==>
          step.landed && step.policy.threshold == threshold && step.db == WarnDb(true, true, true))
  }

  lemma StepAccounts(s: State, step: Step, u: User, threshold: nat)
    requires Inv(s) && threshold > 0 && Accountable(step, u, threshold) && Active(s, u) < threshold
    ensures var s' := Next(s, step);
            && Active(s', u) < threshold
            && threshold * Tally(s'.escalations, u) + Active(s', u)
               == threshold * Tally(s.escalations, u) + Active(s, u) + WarnsOf([step], u)
  {
    hide Inv, Next, Active;
    assert WarnsOf([step], u) == if step.DoWarn? && step.user == u then 1 else 0;
    if step.DoWarn? {
      WarnCounts(s, step.user, step.policy, step.landed, step.db, u);
      assert threshold * (Tally(s.escalations, u) + 1) == threshold * Tally(s.escalations, u) + threshold;
    } else {
      OtherStepCounts(s, step, u);
    }
  }

  lemma {:induction false} RunAccounts(s: State, steps: seq<Step>, u: User, threshold: nat)
    requires Inv(s) && threshold > 0 && Active(s, u) < threshold
    requires forall st | st in steps :: Accountable(st, u, threshold)
    ensures var s' := Run(s, steps);
            && Active(s', u) < threshold
            && threshold * Tally(s'.escalations, u) + Active(s', u)
               == threshold * Tally(s.escalations, u) + Active(s, u) + WarnsOf(steps, u)
    decreases steps
  {
    if steps != [] {
      hide Inv, Next, Active, Tally;
      assert steps[0] in steps;
      assert Inv(Next(s, steps[0])) by { StepKeepsInv(s, steps[0]); }
      StepAccounts(s, steps[0], u, threshold);
      RunAccounts(Next(s, steps[0]), steps[1..], u, threshold);
    }
  }

  /** With threshold T > 0 fixed and every punishment of `u` landing, any run from an
      empty log in which cases are written and kept, with other commands and the
      sweeper interleaved, turns k warns into exactly k div T escalations and k mod T
      active warns. */
  lemma WarnAccounting(now: int, steps: seq<Step>, u: User, threshold: nat)
    requires threshold > 0 && forall st | st in steps :: Accountable(st, u, threshold)
    ensures var s, k := Run(Empty(now), steps), WarnsOf(steps, u);
            Active(s, u) == k % threshold && Tally(s.escalations, u) == k / threshold
  {
    hide *;
    EmptyCounts(now, u);
    RunAccounts(Empty(now), steps, u, threshold);
    var s := Run(Empty(now), steps);
    QuotientAndRemainder(WarnsOf(steps, u), threshold, Tally(s.escalations, u), Active(s, u));
  }

  lemma EmptyCounts(now: int, u: User)
    ensures Inv(Empty(now)) && Active(Empty(now), u) == 0 && Tally(Empty(now).escalations, u) == 0
  {
    assert ActiveWarns(Empty(now).cases, u) == {};
  }

  datatype Note = Quiet | Escalated | EscalationFailed

  /** What the warn command tells the moderator. */
  ghost function WarnNote(s: State, u: User, policy: Policy, landed: bool, db: WarnDb): Note {
    if !db.readOk || !EscalationDue(Warned(s, u, db).cases, u, policy) then Quiet
    else if landed then Escalated else EscalationFailed
  }

  /** Whatever fails: a warn ends below the threshold, or reports that it could not escalate,
      unless it reaches the threshold and the policy cannot be read, or the punishment lands
      and the reset is lost. */
  lemma WarnEndsBelowOrReports(s: State, u: User, policy: Policy, landed: bool, db: WarnDb)
    requires policy.threshold > 0
    ensures Active(Next(s, DoWarn(u, policy, landed, db)), u) < policy.threshold
            || WarnNote(s, u, policy, landed, db) == EscalationFailed
            <==>
            || Active(s, u) + (if db.caseOk then 1 else 0) < policy.threshold
            || (db.readOk && (landed ==> db.resetOk))
  {
    hide NextNumber, Next, ActiveWarns, Warned;
    WarnedCounts(s, u, db, u);
    WarnCounts(s, u, policy, landed, db, u);
  }

  /** The input: a threshold of one, a first warn, and a policy that cannot be read. */
  lemma UnreadPolicyIsSilent(now: int, u: User, landed: bool)
    ensures var policy, db := Policy(1, ToKick), WarnDb(true, false, true);
            Active(Next(Empty(now), DoWarn(u, policy, landed, db)), u) >= policy.threshold
            && WarnNote(Empty(now), u, policy, landed, db) == Quiet
  {
    EmptyCounts(now, u);
    WarnEndsBelowOrReports(Empty(now), u, Policy(1, ToKick), landed, WarnDb(true, false, true));
    hide Next, Active;
  }
}
