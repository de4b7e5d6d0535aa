/**
 What happens before its time: when a ban is lifted by another one's row, and when a row is
 swept although it is not due. Exact conditions, in any state, over every sequence of steps.
 */
module Early {
  import opened Base
  import opened Moderation
  import opened Stranding

  // ---- bans that are lifted before their time -----------------------------

  /** The sweeper holds a timeout under that number, which it clears whatever the answer. */
  ghost predicate Doomed(queue: seq<(nat, Row)>, k: nat) {
    exists e :: e in queue && e.0 == k && e.1.lift == LiftTimeout
  }

  /** A ban row of `u` due before `until` (at any time, if it is None) that the sweeper is not
      bound to clear first, or a ban entry of theirs in the sweeper's hands. */
  ghost predicate Pending(s: State, u: User, until: Option<int>) {
    || (exists k :: k in s.timed && BanRowOf(s.timed[k], u) && Before(s.timed[k].expires, until) && !Doomed(s.queue, k))
    || (exists e :: e in s.queue && BanRowOf(e.1, u))
  }

  predicate Before(t: int, until: Option<int>) {
    until.None? || t < until.value
  }

  /** A step by which somebody lifts, renews or shortens the ban of `u`. */
  predicate Interferes(s: State, step: Step, u: User) {
    match step
    case DoUntimed(lift, v, _) => lift == LiftBan && v == u
    case DoTempBan(v, _, _, _) => v == u
    case ByHand(v, _) => v == u
    case LiftRow(n) => n in s.timed && BanRowOf(s.timed[n], u)
    case _ => false
  }

  ghost predicate LeftAlone(s: State, steps: seq<Step>, u: User)
    decreases |steps|
  {
    steps != [] ==> !Interferes(s, steps[0], u) && LeftAlone(Next(s, steps[0]), steps[1..], u)
  }

  /** As long as nobody interferes, `u` stays banned until then. */
  ghost predicate HoldsUntil(s: State, u: User, until: Option<int>) {
    forall steps | LeftAlone(s, steps, u) && Before(Run(s, steps).now, until) :: u in Run(s, steps).bans
  }

  lemma TimePasses(s: State, step: Step)
    ensures s.now <= Next(s, step).now
  {
    if step.DoWarn? {
      WarnLeaves(s, step.user, step.policy, step.landed, step.db);
    }
    hide ResetWarns, EscalationDue, NextNumber, DropRows, Punish;
  }

  lemma {:induction false} TimeOnlyPasses(s: State, steps: seq<Step>)
    ensures s.now <= Run(s, steps).now
    decreases |steps|
  {
    if steps != [] {
      hide Next;
      TimePasses(s, steps[0]);
      TimeOnlyPasses(Next(s, steps[0]), steps[1..]);
    }
  }

  lemma NotPendingStep(s: State, step: Step, u: User, until: Option<int>)
    requires !Pending(s, u, until) && u in s.bans && !Interferes(s, step, u) && Before(s.now, until)
    ensures !Pending(Next(s, step), u, until) && u in Next(s, step).bans
  {
    match step
    case Sweep(outcome) => if s.queue != [] { NotPendingSweep(s, outcome, u, until); }
    case Scan(order) => if s.queue == [] && ScanOf(s, order) { NotPendingScan(s, order, u, until); }
    case DoWarn(v, policy, landed, db) =>
      WarnLeaves(s, v, policy, landed, db);
      hide Next;
    case _ => NotPendingCommand(s, step, u, until);
  }

  lemma NotPendingCommand(s: State, step: Step, u: User, until: Option<int>)
    requires !Pending(s, u, until) && u in s.bans && !Interferes(s, step, u)
    requires !step.Sweep? && !step.Scan? && !step.DoWarn?
    ensures !Pending(Next(s, step), u, until) && u in Next(s, step).bans
  {
    hide NextNumber;
    var s' := Next(s, step);
    assert s'.queue == s.queue;
    forall k | k in s'.timed && BanRowOf(s'.timed[k], u)
      ensures Before(s'.timed[k].expires, until) ==> Doomed(s'.queue, k)
    {
      assert k in s.timed && s'.timed[k] == s.timed[k];
    }
  }

  lemma NotPendingSweep(s: State, outcome: Outcome, u: User, until: Option<int>)
    requires !Pending(s, u, until) && u in s.bans && s.queue != []
    ensures !Pending(Next(s, Sweep(outcome)), u, until) && u in Next(s, Sweep(outcome)).bans
  {
    var s', head := Next(s, Sweep(outcome)), s.queue[0];
    assert head in s.queue;
    assert forall e | e in s'.queue :: e in s.queue;
    forall k | k in s'.timed && BanRowOf(s'.timed[k], u) && Before(s'.timed[k].expires, until)
      ensures Doomed(s'.queue, k)
    {
      assert k in s.timed && s'.timed[k] == s.timed[k];
      var e :| e in s.queue && e.0 == k && e.1.lift == LiftTimeout;
      assert e == head || e in s'.queue;
    }
  }

  lemma NotPendingScan(s: State, order: seq<nat>, u: User, until: Option<int>)
    requires !Pending(s, u, until) && u in s.bans && Before(s.now, until) && s.queue == [] && ScanOf(s, order)
    ensures !Pending(Next(s, Scan(order)), u, until) && u in Next(s, Scan(order)).bans
  {
    var s' := Next(s, Scan(order));
    assert forall k :: !Doomed(s.queue, k);
    forall e | e in s'.queue ensures !BanRowOf(e.1, u) {
      var i :| 0 <= i < |s'.queue| && s'.queue[i] == e;
      assert order[i] in order && Due(s.timed, s.now, order[i]);
    }
  }

  lemma {:induction false} NotPendingRun(s: State, steps: seq<Step>, u: User, until: Option<int>)
    requires !Pending(s, u, until) && u in s.bans && LeftAlone(s, steps, u) && Before(Run(s, steps).now, until)
    ensures u in Run(s, steps).bans
    decreases |steps|
  {
    if steps != [] {
      hide Next, Pending, Interferes;
      TimeOnlyPasses(s, steps);
      NotPendingStep(s, steps[0], u, until);
      NotPendingRun(Next(s, steps[0]), steps[1..], u, until);
    }
  }

  /** `steps` lift the ban, in time and without interference. */
  ghost predicate LiftedBy(s: State, steps: seq<Step>, u: User, until: Option<int>) {
    LeftAlone(s, steps, u) && Before(Run(s, steps).now, until) && u !in Run(s, steps).bans
  }

  lemma LiftedLater(s: State, step: Step, steps: seq<Step>, u: User, until: Option<int>)
    requires !Interferes(s, step, u) && LiftedBy(Next(s, step), steps, u, until)
    ensures LiftedBy(s, [step] + steps, u, until)
  {
    hide Next, Interferes;
    assert ([step] + steps)[1..] == steps;
  }

  lemma LiftedNow(s: State, u: User, until: Option<int>)
    requires u !in s.bans && Before(s.now, until)
    ensures LiftedBy(s, [], u, until)
  {
  }

  lemma {:induction false} QueuedEntryLifts(s: State, u: User, until: Option<int>) returns (steps: seq<Step>)
    requires Before(s.now, until) && exists e :: e in s.queue && BanRowOf(e.1, u)
    ensures LiftedBy(s, steps, u, until)
    decreases |s.queue|
  {
    hide LiftedBy;
    var head := s.queue[0];
    if BanRowOf(head.1, u) {
      LiftedNow(Next(s, Sweep(Done)), u, until);
      LiftedLater(s, Sweep(Done), [], u, until);
      steps := [Sweep(Done)] + [];
    } else {
      var s' := Next(s, Sweep(Transient));
      assert forall x | x in s.queue :: x == head || x in s'.queue;
      var rest := QueuedEntryLifts(s', u, until);
      LiftedLater(s, Sweep(Transient), rest, u, until);
      steps := [Sweep(Transient)] + rest;
    }
  }

  lemma {:induction false} Listing(numbers: set<nat>) returns (order: seq<nat>)
    ensures forall n :: n in order <==> n in numbers
  {
    if numbers == {} {
      order := [];
    } else {
      var n :| n in numbers;
      var rest := Listing(numbers - {n});
      order := [n] + rest;
    }
  }

  /** The row's time comes, a new scan finds it, and the sweeper lifts the ban. */
  lemma DueRowLifts(s: State, k: nat, u: User, until: Option<int>) returns (steps: seq<Step>)
    requires s.queue == [] && Before(s.now, until)
    requires k in s.timed && BanRowOf(s.timed[k], u) && Before(s.timed[k].expires, until)
    ensures LiftedBy(s, steps, u, until)
  {
    hide LiftedBy;
    var wait := if s.timed[k].expires > s.now then s.timed[k].expires - s.now else 0;
    var s1 := Next(s, Tick(wait));
    var order := Listing(set n | n in s1.timed && s1.timed[n].expires <= s1.now);
    assert ScanOf(s1, order) && k in order;
    var s2 := Next(s1, Scan(order));
    var i :| 0 <= i < |order| && order[i] == k;
    assert s2.queue[i] == (k, s.timed[k]) && s2.queue[i] in s2.queue;
    var rest := QueuedEntryLifts(s2, u, until);
    LiftedLater(s1, Scan(order), rest, u, until);
    LiftedLater(s, Tick(wait), [Scan(order)] + rest, u, until);
    steps := [Tick(wait)] + ([Scan(order)] + rest);
  }

  lemma {:induction false} PendingRowLifts(s: State, k: nat, u: User, until: Option<int>) returns (steps: seq<Step>)
    requires Before(s.now, until) && !Doomed(s.queue, k)
    requires k in s.timed && BanRowOf(s.timed[k], u) && Before(s.timed[k].expires, until)
    ensures LiftedBy(s, steps, u, until)
    decreases |s.queue|
  {
    hide LiftedBy;
    if s.queue == [] {
      steps := DueRowLifts(s, k, u, until);
    } else {
      var s' := Next(s, Sweep(Transient));
      assert s.queue[0] in s.queue && forall e | e in s'.queue :: e in s.queue;
      var rest := PendingRowLifts(s', k, u, until);
      LiftedLater(s, Sweep(Transient), rest, u, until);
      steps := [Sweep(Transient)] + rest;
    }
  }

  /** A ban holds until its time, in any state and whatever happens short of interference,
      if and only if the sweeper holds no ban of that user, and each of their ban rows due
      before then is one it is bound to clear first. So a permanent ban of someone
      temp-banned, or a longer temp-ban over a shorter one, ends when the old row does,
      because neither command clears it. */
  lemma BanHoldsIff(s: State, u: User, until: Option<int>)
    requires u in s.bans && Before(s.now, until)
    ensures HoldsUntil(s, u, until) <==> !Pending(s, u, until)
  {
    hide LeftAlone, Run, Doomed;
    if !Pending(s, u, until) {
      forall steps | LeftAlone(s, steps, u) && Before(Run(s, steps).now, until) ensures u in Run(s, steps).bans {
        NotPendingRun(s, steps, u, until);
      }
    } else if e :| e in s.queue && BanRowOf(e.1, u) {
      var steps := QueuedEntryLifts(s, u, until);
    } else {
      var k :| k in s.timed && BanRowOf(s.timed[k], u) && Before(s.timed[k].expires, until) && !Doomed(s.queue, k);
      var steps := PendingRowLifts(s, k, u, until);
    }
  }

  /** The input: temp-ban 7, then ban 7 for good; the old row still lifts it. */
  lemma PermanentBanIsLifted()
    ensures var s := Next(Next(Empty(0), DoTempBan(7, 5, true, true)), DoBan(7, true));
            s.bans == map[7 := Permanent] && !HoldsUntil(s, 7, None)
  {
    var s := Next(Next(Empty(0), DoTempBan(7, 5, true, true)), DoBan(7, true));
    BansOf7();
    hide Next;
    assert 1 in s.timed && BanRowOf(s.timed[1], 7) && !Doomed(s.queue, 1);
    BanHoldsIff(s, 7, None);
  }

  lemma BansOf7()
    ensures var s := Next(Next(Empty(0), DoTempBan(7, 5, true, true)), DoBan(7, true));
            s.bans == map[7 := Permanent] && s.timed == map[1 := Row(7, LiftBan, 5)] && s.now == 0 && s.queue == []
  {
    var s0 := Next(Empty(0), DoTempBan(7, 5, true, true));
    assert s0.timed == map[1 := Row(7, LiftBan, 5)];
    assert map[7 := Temporary][7 := Permanent] == map[7 := Permanent];
    hide NextNumber;
  }

  // ---- rows that are swept before their time ------------------------------

  /** Row `n` is the same record, at most lifted early. */
  ghost predicate SameRow(before: map<nat, Row>, after: map<nat, Row>, n: nat)
    requires n in before
  {
    && n in after && after[n].user == before[n].user && after[n].lift == before[n].lift
    && after[n].expires <= before[n].expires
  }

  /** Along the steps the sweeper clears row `n` before it expires. */
  ghost predicate SweptEarly(s: State, steps: seq<Step>, n: nat)
    decreases |steps|
  {
    n in s.timed && steps != [] &&
    var s' := Next(s, steps[0]);
    ((steps[0].Sweep? && n !in s'.timed && s.timed[n].expires > s.now)
     || (SameRow(s.timed, s'.timed, n) && SweptEarly(s', steps[1..], n)))
  }

  /** If the sweeper holds an entry under `n`, the row is due. */
  ghost predicate OnTime(s: State, n: nat) {
    n in s.timed && Queued(s, n) ==> s.timed[n].expires <= s.now
  }

  lemma QueueAfter(s: State, step: Step, n: nat)
    requires !Queued(s, n) && Queued(Next(s, step), n)
    ensures Due(s.timed, s.now, n) && Next(s, step).timed == s.timed && Next(s, step).now == s.now
  {
    var s' := Next(s, step);
    var e :| e in s'.queue && e.0 == n;
    assert s.queue != [] ==> forall x | x in s.queue[1..] :: x in s.queue;
    match step
    case Scan(order) =>
      var i :| 0 <= i < |s'.queue| && s'.queue[i] == e;
      assert order[i] in order;
    case DoWarn(u, policy, landed, db) => WarnLeaves(s, u, policy, landed, db); hide Next;
    case Sweep(_) =>
    case _ => hide NextNumber;
  }

  lemma OnTimeStep(s: State, step: Step, n: nat)
    requires OnTime(s, n) && n in s.timed
    ensures SameRow(s.timed, Next(s, step).timed, n) ==> OnTime(Next(s, step), n)
    ensures step.Sweep? && n !in Next(s, step).timed ==> s.timed[n].expires <= s.now
  {
    TimePasses(s, step);
    if !Queued(s, n) && Queued(Next(s, step), n) {
      QueueAfter(s, step, n);
    }
    if step.Sweep? && s.queue != [] {
      assert s.queue[0] in s.queue;
    }
    hide NextNumber, Escalate, Warned;
  }

  lemma {:induction false} OnTimeRun(s: State, steps: seq<Step>, n: nat)
    requires OnTime(s, n)
    ensures !SweptEarly(s, steps, n)
    decreases |steps|
  {
    if n in s.timed && steps != [] {
      hide Next, OnTime;
      OnTimeStep(s, steps[0], n);
      if SameRow(s.timed, Next(s, steps[0]).timed, n) {
        OnTimeRun(Next(s, steps[0]), steps[1..], n);
      }
    }
  }

  lemma {:induction false} HeldEntrySweeps(s: State, n: nat) returns (steps: seq<Step>)
    requires n in s.timed && Queued(s, n) && s.timed[n].expires > s.now
    ensures SweptEarly(s, steps, n)
    decreases |s.queue|
  {
    var head := s.queue[0];
    if head.0 == n {
      steps := [Sweep(Done)];
    } else {
      var s' := Next(s, Sweep(Transient));
      assert forall x | x in s.queue :: x == head || x in s'.queue;
      var rest := HeldEntrySweeps(s', n);
      steps := [Sweep(Transient)] + rest;
      assert steps[1..] == rest;
    }
  }

  /** Whatever follows, the sweeper does not clear row `n` before it expires. */
  ghost predicate NeverEarly(s: State, n: nat) {
    forall steps: seq<Step> :: !SweptEarly(s, steps, n)
  }

  /** In any state, over every sequence of steps that may follow: the sweeper never clears a
      row before its expiry if and only if, while the row is not due, it holds no entry
      under that number. */
  lemma SweepNeverEarlyIff(s: State, n: nat)
    requires n in s.timed
    ensures NeverEarly(s, n) <==> (Queued(s, n) ==> s.timed[n].expires <= s.now)
  {
    if Queued(s, n) && s.timed[n].expires > s.now {
      var steps := HeldEntrySweeps(s, n);
      assert SweptEarly(s, steps, n);
    } else {
      forall steps: seq<Step> ensures !SweptEarly(s, steps, n) {
        OnTimeRun(s, steps, n);
      }
    }
  }

  /** So a temp-ban keeps its row until it expires, through the rest of a pass and all that
      follows, if and only if its number is not one the sweeper still holds. */
  lemma TempBanSurvivesPassIff(s: State, u: User, expires: int)
    requires expires > s.now
    ensures NeverEarly(Next(s, DoTempBan(u, expires, true, true)), NextNumber(s.cases.Keys))
       <==> !Queued(s, NextNumber(s.cases.Keys))
  {
    var s1, n := Next(s, DoTempBan(u, expires, true, true)), NextNumber(s.cases.Keys);
    assert n in s1.timed && s1.timed[n].expires == expires && s1.now == s.now && s1.queue == s.queue;
    hide Next, NeverEarly;
    SweepNeverEarlyIff(s1, n);
  }
}
