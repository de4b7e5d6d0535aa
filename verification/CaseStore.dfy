/** The moderation tables as the commands and the sweeper update them, statement by
    statement. The API's and the database's answers are parameters. */
module CaseStore {
  import opened Base
  import opened Moderation

  lemma RowIgnoresQueue(s: State, q: seq<(nat, Row)>, n: nat, r: Row, outcome: Outcome)
    ensures SweepRow(s.(queue := q), n, r, outcome) == SweepRow(s, n, r, outcome).(queue := q)
  {
  }

  // ---- what a command leaves alone ----------------------------------------

  ghost predicate SameRows(s: map<nat, Row>, t: map<nat, Row>, v: User) {
    && (forall n | n in s && s[n].user == v :: n in t && t[n] == s[n])
    && (forall n | n in t && t[n].user == v :: n in s && t[n] == s[n])
  }

  ghost predicate SameCases(s: map<nat, Case>, t: map<nat, Case>, v: User) {
    && (forall n | n in s && s[n].target == v :: n in t && t[n] == s[n])
    && (forall n | n in t && t[n].target == v :: n in s && t[n] == s[n])
  }

  /** Neither the ban, nor the rows, nor the cases of `v` changed. */
  ghost predicate SameUser(s: State, t: State, v: User) {
    && (v in t.bans <==> v in s.bans) && (v in s.bans ==> t.bans[v] == s.bans[v])
    && SameRows(s.timed, t.timed, v) && SameCases(s.cases, t.cases, v)
  }

  /** A command about someone. */
  function Subject(step: Step): Option<User> {
    match step
    case DoTempBan(u, _, _, _) => Some(u)
    case DoTimed(_, u, _, _) => Some(u)
    case DoUntimed(_, u, _) => Some(u)
    case DoBan(u, _) => Some(u)
    case DoWarn(u, _, _, _) => Some(u)
    case ByHand(u, _) => Some(u)
    case _ => None
  }

  lemma NewCaseLocal(cases: map<nat, Case>, c: Case, v: User)
    requires c.target != v
    ensures SameCases(cases, cases[NextNumber(cases.Keys) := c], v)
  {
    assert NextNumber(cases.Keys) !in cases;
    hide NextNumber;
  }

  predicate Owns(timed: map<nat, Row>, n: nat, v: User) {
    n in timed && timed[n].user == v
  }

  lemma NewRowLocalIff(timed: map<nat, Row>, n: nat, r: Row, v: User)
    requires r.user != v
    ensures SameRows(timed, timed[n := r], v) <==> !Owns(timed, n, v)
  {
    assert forall k | k != n && k in timed :: timed[n := r][k] == timed[k];
  }

  lemma NoChangeLocal(s: State, v: User)
    ensures SameRows(s.timed, s.timed, v) && SameCases(s.cases, s.cases, v)
  {
  }

  lemma DropsLocal(timed: map<nat, Row>, u: User, lift: Lift, v: User)
    requires u != v
    ensures SameRows(timed, DropRows(timed, u, lift), v)
  {
  }

  lemma ResetLocal(cases: map<nat, Case>, other: map<nat, Case>, u: User, v: User)
    requires u != v && SameCases(cases, other, v)
    ensures SameCases(cases, ResetWarns(other, u), v)
  {
  }

  lemma CasesLocalTwice(a: map<nat, Case>, b: map<nat, Case>, c: map<nat, Case>, v: User)
    requires SameCases(a, b, v) && SameCases(b, c, v)
    ensures SameCases(a, c, v)
  {
  }

  /** A new case, or a case with its row, about somebody else. */
  lemma CaseAndRowLocal(s: State, kind: Kind, lift: Lift, u: User, expires: int, v: User)
    requires u != v
    ensures var t := NewCase(s, kind, u, None); SameUser(s, t, v) && t.bans == s.bans && t.timed == s.timed
    ensures var t := NewTimed(s, lift, u, expires);
            && t.bans == s.bans && SameCases(s.cases, t.cases, v)
            && (SameUser(s, t, v) <==> !Owns(s.timed, NextNumber(s.cases.Keys), v))
  {
    NewCaseLocal(s.cases, Case(kind, u, true, None), v);
    NewCaseLocal(s.cases, Case(KindOf(lift), u, true, Some(expires)), v);
    NewRowLocalIff(s.timed, NextNumber(s.cases.Keys), Row(u, lift, expires), v);
    NoChangeLocal(s, v);
    hide SameRows, SameCases, NextNumber, Owns;
  }

  /** The number under which a punishment writes a row. */
  ghost function PunishmentRow(s: State, punishment: Punishment): Option<nat> {
    if punishment.ToTimeout? then Some(NextNumber(s.cases.Keys)) else None
  }

  /** The number under which a command writes a row together with its case. */
  ghost function CaseRow(s: State, step: Step): Option<nat> {
    match step
    case DoTempBan(u, expires, apiOk, caseOk) =>
      if expires > s.now && apiOk && caseOk then Some(NextNumber(s.cases.Keys)) else None
    case DoTimed(lift, u, expires, apiOk) =>
      if expires > s.now && apiOk && lift != LiftBan then Some(NextNumber(s.cases.Keys)) else None
    case DoWarn(u, policy, landed, db) =>
      var warned := Warned(s, u, db);
      if db.readOk && EscalationDue(warned.cases, u, policy) && landed
      then PunishmentRow(warned, policy.punishment) else None
    case _ => None
  }

  ghost predicate Hits(timed: map<nat, Row>, n: Option<nat>, v: User) {
    n.Some? && Owns(timed, n.value, v)
  }

  lemma PunishIsLocal(s: State, u: User, punishment: Punishment, v: User)
    requires u != v
    ensures SameUser(s, Punish(s, u, punishment), v) <==> !Hits(s.timed, PunishmentRow(s, punishment), v)
    ensures var t := Punish(s, u, punishment);
            SameCases(s.cases, t.cases, v) && (v in t.bans <==> v in s.bans) && (v in s.bans ==> t.bans[v] == s.bans[v])
  {
    hide NewCase, NewTimed, SameRows, SameCases, Clamp, Owns, NextNumber;
    match punishment
    case ToKick => CaseAndRowLocal(s, Kick, LiftTimeout, u, 0, v);
    case ToBan => CaseAndRowLocal(s, Ban, LiftTimeout, u, 0, v);
    case ToTimeout(secs) => CaseAndRowLocal(s, Kick, LiftTimeout, u, s.now + Clamp(secs), v);
  }

  lemma EscalateIsLocal(s: State, u: User, policy: Policy, resetOk: bool, v: User)
    requires u != v
    ensures var t := Escalate(s, u, policy, resetOk);
            && (SameUser(s, t, v) <==> !Hits(s.timed, PunishmentRow(s, policy.punishment), v))
            && SameCases(s.cases, t.cases, v) && (v in t.bans <==> v in s.bans) && (v in s.bans ==> t.bans[v] == s.bans[v])
  {
    PunishIsLocal(s, u, policy.punishment, v);
    ResetLocal(s.cases, Punish(s, u, policy.punishment).cases, u, v);
    hide Punish, SameRows, SameCases, ResetWarns, PunishmentRow, Owns;
  }

  lemma WarnIsLocal(s: State, u: User, policy: Policy, landed: bool, db: WarnDb, v: User)
    requires u != v
    ensures var step := DoWarn(u, policy, landed, db);
            SameUser(s, Next(s, step), v) <==> !Hits(s.timed, CaseRow(s, step), v)
  {
    var warned := Warned(s, u, db);
    CaseAndRowLocal(s, Warn, LiftMute, u, 0, v);
    NoChangeLocal(s, v);
    assert SameUser(s, warned, v) && warned.timed == s.timed && warned.bans == s.bans;
    hide Warned, NewCase, NextNumber, SameRows, SameCases, EscalationDue, Escalate, PunishmentRow, Owns;
    if db.readOk && EscalationDue(warned.cases, u, policy) && landed {
      EscalateIsLocal(warned, u, policy, db.resetOk, v);
      CasesLocalTwice(s.cases, warned.cases, Escalate(warned, u, policy, db.resetOk).cases, v);
    }
  }

  lemma TempBanIsLocal(s: State, u: User, expires: int, apiOk: bool, caseOk: bool, v: User)
    requires u != v
    ensures var step := DoTempBan(u, expires, apiOk, caseOk);
            SameUser(s, Next(s, step), v) <==> !Hits(s.timed, CaseRow(s, step), v)
  {
    CaseAndRowLocal(s, TempBan, LiftBan, u, expires, v);
    NoChangeLocal(s, v);
    assert !Owns(s.timed, NextNumber(s.timed.Keys), v);
    NewRowLocalIff(s.timed, NextNumber(s.timed.Keys), Row(u, LiftBan, expires), v);
    hide SameRows, SameCases, NextNumber, NewTimed, Owns;
  }

  lemma UntimedIsLocal(s: State, lift: Lift, u: User, apiOk: bool, v: User)
    requires u != v
    ensures SameUser(s, Next(s, DoUntimed(lift, u, apiOk)), v)
  {
    DropsLocal(s.timed, u, lift, v);
    NoChangeLocal(s, v);
    NewCaseLocal(s.cases, Case(if lift == LiftBan then Unban else if lift == LiftMute then Unmute else Untimeout, u, true, None), v);
    hide SameRows, SameCases, NextNumber, DropRows;
  }

  /** A command about one user changes nothing for another, in any state, if and only if the
      number of its case is not that of a row of the other: such a row it overwrites. */
  lemma CommandsAreLocalIff(s: State, step: Step, v: User)
    requires Subject(step).Some? && Subject(step).value != v
    ensures SameUser(s, Next(s, step), v) <==> !Hits(s.timed, CaseRow(s, step), v)
  {
    match step
    case DoTempBan(u, expires, apiOk, caseOk) => TempBanIsLocal(s, u, expires, apiOk, caseOk, v);
    case DoUntimed(lift, u, apiOk) => UntimedIsLocal(s, lift, u, apiOk, v); hide Next;
    case DoWarn(u, policy, landed, db) => WarnIsLocal(s, u, policy, landed, db, v);
    case DoTimed(lift, u, expires, _) => TimedIsLocal(s, step, v);
    case DoBan(u, _) => TimedIsLocal(s, step, v);
    case ByHand(_, _) => TimedIsLocal(s, step, v);
  }

  lemma TimedIsLocal(s: State, step: Step, v: User)
    requires Subject(step).Some? && Subject(step).value != v
    requires step.DoTimed? || step.DoBan? || step.ByHand?
    ensures SameUser(s, Next(s, step), v) <==> !Hits(s.timed, CaseRow(s, step), v)
  {
    NoChangeLocal(s, v);
    if step.DoTimed? {
      CaseAndRowLocal(s, Mute, step.lift, step.user, step.expires, v);
    } else if step.DoBan? {
      CaseAndRowLocal(s, Ban, LiftBan, step.user, 0, v);
    }
    hide SameRows, SameCases, NewCase, NewTimed, Owns, NextNumber;
  }

  /** Deleting a case changes nothing for anyone it and its row are not about. */
  lemma DeletionIsLocal(s: State, n: nat, v: User)
    requires (n in s.cases ==> s.cases[n].target != v) && (n in s.timed ==> s.timed[n].user != v)
    ensures SameUser(s, Next(s, DeleteCase(n)), v)
  {
  }

  class Store {
    var now: int
    var cases: map<nat, Case>
    var timed: map<nat, Row>
    var bans: map<User, Hold>
    var queue: seq<(nat, Row)>
    ghost var failed: set<User>
    ghost var orphaned: set<User>
    ghost var escalations: map<User, nat>

    ghost function View(): State
      reads this
    {
      State(now, cases, timed, bans, queue, failed, orphaned, escalations)
    }

    /** The highest number of a table, 0 when it is empty: order descending, take one. */
    static method Highest(numbers: set<nat>) returns (highest: nat)
      ensures highest + 1 == NextNumber(numbers)
    {
      highest := 0;
      var left := numbers;
      while left != {}
        invariant left <= numbers
        invariant forall k | k in numbers :: k in left || k <= highest
        invariant highest in numbers || (highest == 0 && (left == numbers || 0 in numbers))
        decreases |left|
      {
        var k :| k in left;
        if k > highest {
          highest := k;
        }
        left := left - {k};
      }
    }

    /** The next case number and the insert, in one transaction; None on a database error. */
    method CreateCase(kind: Kind, target: User, expires: Option<int>, dbOk: bool) returns (n: Option<nat>)
      modifies this`cases
      ensures if dbOk then n == Some(NextNumber(old(cases).Keys)) && View() == NewCase(old(View()), kind, target, expires)
              else n == None && View() == old(View())
    {
      if !dbOk {
        return None;
      }
      var highest := Highest(cases.Keys);
      cases := cases[highest + 1 := Case(kind, target, true, expires)];
      return Some(highest + 1);
    }

    /** Upsert of the row the sweeper watches, with a number of its own if need be. */
    method RecordTimed(caseNumber: Option<nat>, target: User, lift: Lift, expires: int)
      modifies this`timed
      ensures var n := if caseNumber.Some? then caseNumber.value else NextNumber(old(timed).Keys);
              timed == old(timed)[n := Row(target, lift, expires)]
    {
      var n: nat;
      if caseNumber.Some? {
        n := caseNumber.value;
      } else {
        var highest := Highest(timed.Keys);
        n := highest + 1;
      }
      timed := timed[n := Row(target, lift, expires)];
    }

    /** `tempban`: refuse a past date, ban, write the case, register the expiry. */
    method TempBanCommand(user: User, expires: int, apiOk: bool, caseOk: bool)
      modifies this
      ensures View() == Next(old(View()), DoTempBan(user, expires, apiOk, caseOk))
    {
      if expires <= now || !apiOk {
        return;
      }
      bans := bans[user := Temporary];
      failed, orphaned := failed - {user}, orphaned - {user};
      var n := CreateCase(TempBan, user, Some(expires), caseOk);
      RecordTimed(n, user, LiftBan, expires);
    }

    /** `unban`: lift the ban, drop its scheduled expiry, log it. */
    method UnbanCommand(user: User, apiOk: bool)
      modifies this
      ensures View() == Next(old(View()), DoUntimed(LiftBan, user, apiOk))
    {
      if !apiOk {
        return;
      }
      bans := bans - {user};
      timed := DropRows(timed, user, LiftBan);
      var n := CreateCase(Unban, user, None, true);
    }

    /** `delcase` and the dashboard's delete: the case, then its expiry. */
    method DeleteCaseCommand(number: nat) returns (found: bool)
      modifies this
      ensures found == (number in old(cases))
      ensures View() == Next(old(View()), DeleteCase(number))
    {
      found := number in cases;
      if found {
        cases := cases - {number};
        if number in timed && timed[number].lift == LiftBan {
          orphaned := orphaned + {timed[number].user};
        }
        timed := timed - {number};
      }
    }

    /** The dashboard's early lift: the row becomes due now. */
    method LiftMute(number: nat) returns (accepted: bool)
      modifies this`timed
      ensures accepted == (number in old(timed) && old(timed)[number].lift != LiftTimeout)
      ensures View() == Next(old(View()), LiftRow(number))
    {
      accepted := number in timed && timed[number].lift != LiftTimeout;
      if accepted {
        timed := timed[number := timed[number].(expires := now)];
      }
    }

    /** `warn`: log it, and escalate once enough active warns have gathered. */
    method WarnCommand(user: User, policy: Policy, landed: bool, db: WarnDb) returns (note: Option<bool>)
      modifies this
      ensures View() == Next(old(View()), DoWarn(user, policy, landed, db))
      ensures note == if db.readOk && EscalationDue(Warned(old(View()), user, db).cases, user, policy)
                      then Some(landed) else None
    {
      var n := CreateCase(Warn, user, None, db.caseOk);
      if !db.readOk || !EscalationDue(cases, user, policy) {
        return None;
      }
      if landed {
        EscalateMember(user, policy, db.resetOk);
      }
      return Some(landed);
    }

    /** The punishment has landed: log it, then reset the warn counter. */
    method EscalateMember(user: User, policy: Policy, resetOk: bool)
      modifies this
      ensures View() == Escalate(old(View()), user, policy, resetOk)
    {
      LogPunishment(user, policy.punishment);
      if resetOk {
        cases := ResetWarns(cases, user);
      }
      escalations := escalations[user := Tally(escalations, user) + 1];
    }

    method LogPunishment(user: User, punishment: Punishment)
      modifies this
      ensures View() == Punish(old(View()), user, punishment)
    {
      match punishment {
        case ToKick =>
          var n := CreateCase(Kick, user, None, true);
        case ToBan =>
          bans := bans[user := Permanent];
          var n := CreateCase(Ban, user, None, true);
        case ToTimeout(secs) =>
          var n := CreateCase(Timeout, user, Some(now + Clamp(secs)), true);
          RecordTimed(n, user, LiftTimeout, now + Clamp(secs));
      }
    }

    /** The sweeper's loop over the scanned rows, with nothing in between. */
    method SweepPass(outcomes: seq<Outcome>)
      requires |outcomes| == |queue|
      modifies this
      ensures View() == Drain(old(View()), outcomes)
    {
      hide SweepRow;
      var i := 0;
      while i < |outcomes|
        invariant i <= |outcomes| && |queue| == |outcomes| - i
        invariant Drain(View(), outcomes[i..]) == Drain(old(View()), outcomes)
      {
        assert outcomes[i..][1..] == outcomes[i + 1..];
        var (n, r) := queue[0];
        RowIgnoresQueue(View(), queue[1..], n, r, outcomes[i]);
        queue := queue[1..];
        SweepOneRow(n, r, outcomes[i]);
        i := i + 1;
      }
    }

    method SweepOneRow(n: nat, r: Row, outcome: Outcome)
      modifies this
      ensures View() == SweepRow(old(View()), n, r, outcome)
    {
      var retry := outcome == Transient;
      match r.lift {
        case LiftMute =>
        case LiftBan =>
          if outcome == Done {
            bans := bans - {r.user};
          } else if outcome == Definitive {
            failed := failed + {r.user};
          }
        case LiftTimeout =>
          retry := false;
      }
      if retry {
        return;
      }
      timed := timed - {n};
      if n in cases {
        cases := cases[n := cases[n].(active := false)];
      }
    }
  }
}
