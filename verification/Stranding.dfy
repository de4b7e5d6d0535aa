/**
 When a temp-ban is forgotten: exact conditions, in any state, over every sequence of
 commands, sweeps and answers that may follow.
 */
module Stranding {
  import opened Base
  import opened Moderation

  predicate BanRowOf(r: Row, u: User) {
    r.user == u && r.lift == LiftBan
  }

  /** Held by a temp-ban that nothing will ever lift, and no failure accounts for. */
  ghost predicate Stranded(s: State, u: User) {
    && u in s.bans && s.bans[u] == Temporary && u !in s.failed && u !in s.orphaned
    && !HasBanRow(s.timed, u)
  }

  /** Whatever the sweeper still holds under number `n` is the ban of `u`. */
  ghost predicate EntriesAreOf(queue: seq<(nat, Row)>, n: nat, u: User) {
    forall e | e in queue && e.0 == n :: BanRowOf(e.1, u)
  }

  predicate Renews(steps: seq<Step>, u: User) {
    exists st | st in steps :: st.DoTempBan? && st.user == u
  }

  /** Until `u` is temp-banned again, nothing that follows strands them. */
  ghost predicate NeverStranded(s: State, u: User) {
    forall steps | !Renews(steps, u) :: !Stranded(Run(s, steps), u)
  }

  // ---- rows that are safe -------------------------------------------------

  /** A row of `u` that no new case can overwrite and no stale entry can clear. */
  ghost predicate Secure(s: State, n: nat, u: User) {
    n in s.timed && BanRowOf(s.timed[n], u) && n in s.cases && EntriesAreOf(s.queue, n, u)
  }

  ghost predicate Accounted(s: State, u: User) {
    || u !in s.bans || s.bans[u] == Permanent || u in s.failed || u in s.orphaned
    || exists n :: Secure(s, n, u)
  }

  /** What a step may do to a secure row: nothing, or account for its user. */
  lemma SecureStep(s: State, step: Step, n: nat, u: User)
    requires Secure(s, n, u) && !(step.DoTempBan? && step.user == u)
    ensures var s' := Next(s, step);
            Secure(s', n, u) || u !in s'.bans || u in s'.failed || u in s'.orphaned
  {
    hide ResetWarns, EscalationDue;
    match step
    case Sweep(outcome) =>
      if s.queue != [] {
        assert s.queue[0] in s.queue;
        assert forall e | e in s.queue[1..] :: e in s.queue;
      }
    case Scan(order) => if s.queue == [] && ScanOf(s, order) { ScanSecures(s, order, n, u); }
    case DoWarn(v, policy, landed, db) =>
      WarnLeaves(s, v, policy, landed, db);
      hide Next;
    case _ =>
  }

  lemma ScanSecures(s: State, order: seq<nat>, n: nat, u: User)
    requires Secure(s, n, u) && s.queue == [] && ScanOf(s, order)
    ensures Secure(Next(s, Scan(order)), n, u)
  {
    var q := Snapshot(s.timed, order);
    forall e | e in q && e.0 == n ensures BanRowOf(e.1, u) {
      var i :| 0 <= i < |q| && q[i] == e;
    }
  }

  /** History is forgotten, and a temp-ban imposed, only by a temp-ban of that user. */
  lemma AccountsStay(s: State, step: Step, u: User)
    requires !(step.DoTempBan? && step.user == u)
    ensures var s' := Next(s, step);
            && (u in s.failed ==> u in s'.failed)
            && (u in s.orphaned ==> u in s'.orphaned)
            && (u !in s.bans || s.bans[u] == Permanent ==> u !in s'.bans || s'.bans[u] == Permanent)
  {
    if step.DoWarn? {
      WarnLeaves(s, step.user, step.policy, step.landed, step.db);
      hide Next;
    } else {
      hide NextNumber, DropRows;
    }
  }

  lemma {:induction false} AccountedRun(s: State, steps: seq<Step>, u: User)
    requires Accounted(s, u) && !Renews(steps, u)
    ensures Accounted(Run(s, steps), u)
    decreases |steps|
  {
    if steps != [] {
      hide Next, Secure;
      assert steps[0] in steps && forall st | st in steps[1..] :: st in steps;
      AccountsStay(s, steps[0], u);
      if n :| Secure(s, n, u) {
        SecureStep(s, steps[0], n, u);
      }
      AccountedRun(Next(s, steps[0]), steps[1..], u);
    }
  }

  lemma SecureIsAccounted(s: State, n: nat, u: User)
    requires Secure(s, n, u)
    ensures NeverStranded(s, u)
  {
    forall steps | !Renews(steps, u) ensures !Stranded(Run(s, steps), u) {
      assert Accounted(s, u);
      AccountedRun(s, steps, u);
    }
  }

  // ---- rows that are not --------------------------------------------------

  ghost predicate Held(s: State, u: User) {
    u in s.bans && s.bans[u] == Temporary && u !in s.failed && u !in s.orphaned
  }

  function BanRows(timed: map<nat, Row>, u: User): set<nat> {
    set k | k in timed && BanRowOf(timed[k], u)
  }

  lemma RunPrepend(s: State, step: Step, steps: seq<Step>)
    ensures Run(s, [step] + steps) == Run(Next(s, step), steps)
  {
    assert ([step] + steps)[1..] == steps;
  }

  lemma {:induction false} RunConcat(s: State, first: seq<Step>, later: seq<Step>)
    ensures Run(s, first + later) == Run(Run(s, first), later)
    decreases |first|
  {
    hide Next;
    if first == [] {
      assert [] + later == later;
    } else {
      assert (first + later)[1..] == first[1..] + later;
      RunConcat(Next(s, first[0]), first[1..], later);
    }
  }

  lemma TreatedEntry(s: State, u: User)
    requires Held(s, u) && s.queue != []
    ensures var e := s.queue[0];
            var s' := Next(s, Sweep(if BanRowOf(e.1, u) then Transient else Done));
            && Held(s', u) && s'.queue == s.queue[1..] && s'.cases.Keys == s.cases.Keys
            && BanRows(s'.timed, u) == BanRows(s.timed, u) - (if BanRowOf(e.1, u) then {} else {e.0})
  {
  }

  /** The sweeper treats all it holds: the bans of `u` are put off, everything else done.
      What is left to lift the ban are rows under whose number nothing else was held. */
  lemma {:induction false} PassEnds(s: State, u: User) returns (steps: seq<Step>)
    requires Held(s, u)
    ensures !Renews(steps, u)
    ensures var t := Run(s, steps);
            && Held(t, u) && t.queue == [] && t.cases.Keys == s.cases.Keys
            && forall k | k in BanRows(t.timed, u) :: k in BanRows(s.timed, u) && EntriesAreOf(s.queue, k, u)
    decreases |s.queue|
  {
    hide Next, Held, BanRows, Run;
    if s.queue == [] {
      steps := [];
      assert Run(s, []) == s by { RunNothing(s); }
    } else {
      var e := s.queue[0];
      var step := Sweep(if BanRowOf(e.1, u) then Transient else Done);
      TreatedEntry(s, u);
      var rest := PassEnds(Next(s, step), u);
      RunPrepend(s, step, rest);
      steps := [step] + rest;
      assert forall x | x in s.queue :: x == e || x in s.queue[1..];
    }
  }

  lemma RunNothing(s: State)
    ensures Run(s, []) == s
  {
  }

  ghost function Least(numbers: set<nat>): (k: nat)
    requires numbers != {}
    ensures k in numbers && forall j | j in numbers :: k <= j
  {
    var x :| x in numbers;
    var rest := numbers - {x};
    if rest == {} then
      assert numbers == {x};
      x
    else
      var r := Least(rest);
      assert forall j | j in numbers :: j == x || j in rest;
      if r < x then r else x
  }

  lemma OverwriteStep(s: State, u: User)
    requires Held(s, u)
    ensures var m, s' := NextNumber(s.cases.Keys), Next(s, DoTempBan(u + 1, s.now + 1, true, true));
            Held(s', u) && s'.cases.Keys == s.cases.Keys + {m} && BanRows(s'.timed, u) == BanRows(s.timed, u) - {m}
  {
    hide NextNumber;
  }

  lemma DeletionStep(s: State, k: nat, u: User)
    requires Held(s, u) && k in s.cases && k !in BanRows(s.timed, u)
    ensures var s' := Next(s, DeleteCase(k));
            && Held(s', u) && s'.cases == s.cases - {k} && |s'.cases| < |s.cases|
            && BanRows(s'.timed, u) == BanRows(s.timed, u)
  {
    RemoveOne(s.cases, k);
  }

  lemma BanStep(s: State, u: User)
    requires Held(s, u)
    ensures var s' := Next(s, DoBan(u + 1, true));
            && Held(s', u) && s'.cases.Keys == s.cases.Keys + {NextNumber(s.cases.Keys)}
            && BanRows(s'.timed, u) == BanRows(s.timed, u)
  {
    hide NextNumber;
  }

  /** The number of the first row of `u` that is left. */
  ghost function Target(s: State, u: User): nat {
    if BanRows(s.timed, u) == {} then 0 else Least(BanRows(s.timed, u))
  }

  /** Rows without a case, lowest first: cases come and go until the next number is the
      row's, and the next temp-ban overwrites it. */
  lemma {:induction false} OverwriteAll(s: State, u: User) returns (steps: seq<Step>)
    requires Held(s, u) && forall k | k in BanRows(s.timed, u) :: k >= 1 && k !in s.cases
    ensures !Renews(steps, u) && Stranded(Run(s, steps), u)
    decreases |BanRows(s.timed, u)|, if NextNumber(s.cases.Keys) > Target(s, u) then 1 else 0,
              if NextNumber(s.cases.Keys) > Target(s, u) then |s.cases| else Target(s, u) - NextNumber(s.cases.Keys)
  {
    hide Run, Next, Held, BanRows, Stranded, HasBanRow;
    var rows, m := BanRows(s.timed, u), NextNumber(s.cases.Keys);
    if rows == {} {
      steps := [];
      NoRowsStrand(s, u);
    } else {
      var k := Least(rows);
      var step := if m == k then DoTempBan(u + 1, s.now + 1, true, true)
                  else if m > k then DeleteCase(m - 1) else DoBan(u + 1, true);
      if m == k {
        OverwriteStep(s, u);
        FewerRows(rows, k);
      } else if m > k {
        DeletionStep(s, m - 1, u);
      } else {
        BanStep(s, u);
      }
      var rest := OverwriteAll(Next(s, step), u);
      RunPrepend(s, step, rest);
      steps := [step] + rest;
    }
  }

  lemma FewerRows(rows: set<nat>, k: nat)
    requires k in rows
    ensures |rows - {k}| < |rows|
  {
  }

  lemma NoRowsStrand(s: State, u: User)
    requires Held(s, u) && BanRows(s.timed, u) == {}
    ensures Stranded(Run(s, []), u)
  {
    forall n | n in s.timed ensures !BanRowOf(s.timed[n], u) {
      assert n in BanRows(s.timed, u) <==> BanRowOf(s.timed[n], u);
    }
  }

  // ---- the exact conditions -----------------------------------------------

  /** Whoever a temp-ban holds, in any state at all, is never stranded if and only if some
      row of theirs is secure: its number is that of an existing case, so that no new case
      takes it, and the sweeper holds nothing but their ban under it. (Numbers start at 1.) */
  lemma NeverStrandedIff(s: State, u: User)
    requires Held(s, u) && 0 !in s.timed
    ensures NeverStranded(s, u) <==> exists k :: Secure(s, k, u)
  {
    if k :| Secure(s, k, u) {
      SecureIsAccounted(s, k, u);
    } else {
      var pass := PassEnds(s, u);
      var t := Run(s, pass);
      forall k | k in BanRows(t.timed, u) ensures k >= 1 && k !in t.cases {
        assert k in BanRows(s.timed, u) && EntriesAreOf(s.queue, k, u);
        assert !Secure(s, k, u);
      }
      hide Run, EntriesAreOf, Held, BanRows, Stranded;
      var rest := OverwriteAll(t, u);
      RunConcat(s, pass, rest);
      assert !Renews(pass + rest, u);
    }
  }

  /** A new temp-ban, in any state: nothing that follows strands its user if and only if its
      number is not one under which the sweeper still holds something else, or another row
      of theirs is secure. */
  lemma TempBanNeverStrandedIff(s: State, u: User, expires: int)
    requires expires > s.now && 0 !in s.timed
    ensures NeverStranded(Next(s, DoTempBan(u, expires, true, true)), u)
       <==> EntriesAreOf(s.queue, NextNumber(s.cases.Keys), u) || exists k :: Secure(s, k, u)
  {
    var s1, n := Next(s, DoTempBan(u, expires, true, true)), NextNumber(s.cases.Keys);
    assert n !in s.cases && n >= 1;
    AfterTempBan(s, s1, n, u, expires);
    hide Next, Secure, NextNumber, EntriesAreOf;
    NeverStrandedIff(s1, u);
    assert Secure(s1, n, u) <==> EntriesAreOf(s.queue, n, u);
    assert forall k | k != n :: Secure(s1, k, u) <==> Secure(s, k, u);
    assert !Secure(s, n, u);
  }

  /** What a temp-ban whose row took number `n` makes secure. */
  lemma AfterTempBan(s: State, s1: State, n: nat, u: User, expires: int)
    requires s1.timed == s.timed[n := Row(u, LiftBan, expires)] && s1.queue == s.queue
    requires s1.cases.Keys == s.cases.Keys || (s1.cases.Keys == s.cases.Keys + {n} && n !in s.cases)
    ensures forall k | k != n :: Secure(s1, k, u) <==> Secure(s, k, u)
    ensures Secure(s1, n, u) <==> n in s1.cases && EntriesAreOf(s.queue, n, u)
    ensures n !in s.cases || n !in s.timed ==> !Secure(s, n, u)
  {
  }

  /** The same when the case could not be written: its number must belong to an existing
      case besides. */
  lemma FallbackNeverStrandedIff(s: State, u: User, expires: int)
    requires expires > s.now && 0 !in s.timed
    ensures var n := NextNumber(s.timed.Keys);
            NeverStranded(Next(s, DoTempBan(u, expires, true, false)), u)
            <==> (n in s.cases && EntriesAreOf(s.queue, n, u)) || exists k :: Secure(s, k, u)
  {
    var s1, n := Next(s, DoTempBan(u, expires, true, false)), NextNumber(s.timed.Keys);
    assert n !in s.timed && n >= 1;
    AfterTempBan(s, s1, n, u, expires);
    hide Next, Secure, NextNumber, EntriesAreOf;
    NeverStrandedIff(s1, u);
    assert forall k | k != n :: Secure(s1, k, u) <==> Secure(s, k, u);
    assert !Secure(s, n, u);
  }

  /** Under the invariant every pending ban row is secure. */
  lemma EarlierRowSecures(s: State, u: User, expires: int, caseOk: bool)
    requires Inv(s) && 0 !in s.timed && expires > s.now && HasBanRow(s.timed, u)
    ensures NeverStranded(Next(s, DoTempBan(u, expires, true, caseOk)), u)
  {
    var k :| k in s.timed && BanRowOf(s.timed[k], u);
    RowsAgree(s, k, u);
    assert Secure(s, k, u);
    hide Next, Secure, Inv, EntriesAreOf;
    if caseOk {
      TempBanNeverStrandedIff(s, u, expires);
    } else {
      FallbackNeverStrandedIff(s, u, expires);
    }
  }

  lemma RowsAgree(s: State, k: nat, u: User)
    requires Inv(s) && k in s.timed && BanRowOf(s.timed[k], u)
    ensures k in s.cases && EntriesAreOf(s.queue, k, u)
  {
    hide NobodyStranded;
    forall e | e in s.queue && e.0 == k ensures BanRowOf(e.1, u) {
      assert s.cases[k].target == e.1.user && s.cases[k].kind == KindOf(e.1.lift);
    }
  }
}
