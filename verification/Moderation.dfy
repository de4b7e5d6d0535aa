/**
 Moderation cases, timed infractions and the expiry sweeper, for one guild.

 `Next` is one atomic step: a command, a dashboard request, the sweeper's scan, or
 its treatment of one scanned row. The sweeper sleeps between rows, so commands
 interleave with a pass.
 */
module Moderation {
  import opened Base

  type User = nat

  datatype Kind = Warn | Kick | Ban | Unban | TempBan | Mute | Unmute | Timeout | Untimeout

  datatype Case = Case(kind: Kind, target: User, active: bool, expires: Option<int>)

  /** What the sweeper does when a row expires. */
  datatype Lift = LiftMute | LiftBan | LiftTimeout

  datatype Row = Row(user: User, lift: Lift, expires: int)

  datatype Hold = Temporary | Permanent

  /** The API's answer to a lift: done, worth retrying, or never going to work. */
  datatype Outcome = Done | Transient | Definitive

  /** Any configured action other than kick and ban means a timeout. */
  datatype Punishment = ToKick | ToBan | ToTimeout(secs: nat)

  datatype Policy = Policy(threshold: nat, punishment: Punishment)

  /** The database's answers to `warn`: the warn's own case written, the policy and the
      count read, the counter reset. */
  datatype WarnDb = WarnDb(caseOk: bool, readOk: bool, resetOk: bool)

  /** `failed`, `orphaned` and `escalations` are history: users whose lift failed
      definitively or whose temp-ban case was deleted, and escalations so far. */
  datatype State = State(
    now: int,
    cases: map<nat, Case>,
    timed: map<nat, Row>,
    bans: map<User, Hold>,
    queue: seq<(nat, Row)>,
    failed: set<User>,
    orphaned: set<User>,
    escalations: map<User, nat>)

  // ---- steps --------------------------------------------------------------

  datatype Step =
    | Tick(seconds: nat)
    | DoTempBan(user: User, expires: int, apiOk: bool, caseOk: bool)
    | DoTimed(lift: Lift, user: User, expires: int, apiOk: bool)
    | DoUntimed(lift: Lift, user: User, apiOk: bool)
    | DoBan(user: User, apiOk: bool)
    | DoWarn(user: User, policy: Policy, landed: bool, db: WarnDb)
    | DeleteCase(number: nat)
    | LiftRow(number: nat)
    | Scan(order: seq<nat>)
    | Sweep(outcome: Outcome)
    | ByHand(user: User, banned: bool)

  /** The highest number in use plus one; 1 when there is none. */
  ghost function NextNumber(numbers: set<nat>): (n: nat)
    ensures forall k | k in numbers :: k < n
    ensures if numbers == {} then n == 1 else n > 0 && n - 1 in numbers
  {
    if numbers == {} then 1
    else
      var k :| k in numbers;
      var others := numbers - {k};
      assert forall j | j in numbers :: j == k || j in others;
      var rest := NextNumber(others);
      if rest > k then rest else k + 1
  }

  ghost function NewCase(s: State, kind: Kind, target: User, expires: Option<int>): State {
    s.(cases := s.cases[NextNumber(s.cases.Keys) := Case(kind, target, true, expires)])
  }

  function KindOf(lift: Lift): Kind {
    match lift
    case LiftMute => Mute
    case LiftBan => TempBan
    case LiftTimeout => Timeout
  }

  /** A case and, under its number, the row the sweeper watches. */
  ghost function NewTimed(s: State, lift: Lift, target: User, expires: int): State {
    var n := NextNumber(s.cases.Keys);
    NewCase(s, KindOf(lift), target, Some(expires)).(timed := s.timed[n := Row(target, lift, expires)])
  }

  /** When the case could not be written, the row takes a number of its own. */
  ghost function FallbackTimed(s: State, lift: Lift, target: User, expires: int): State {
    s.(timed := s.timed[NextNumber(s.timed.Keys) := Row(target, lift, expires)])
  }

  function DropRows(timed: map<nat, Row>, user: User, lift: Lift): map<nat, Row> {
    map n | n in timed && !(timed[n].user == user && timed[n].lift == lift) :: timed[n]
  }

  function ActiveWarns(cases: map<nat, Case>, user: User): set<nat> {
    set n | n in cases && cases[n].kind == Warn && cases[n].target == user && cases[n].active
  }

  function ResetWarns(cases: map<nat, Case>, user: User): map<nat, Case> {
    map n | n in cases ::
      if cases[n].kind == Warn && cases[n].target == user then cases[n].(active := false) else cases[n]
  }

  function EscalationDue(cases: map<nat, Case>, user: User, policy: Policy): bool {
    policy.threshold > 0 && |ActiveWarns(cases, user)| >= policy.threshold
  }

  function Clamp(secs: nat): nat {
    if secs < 60 then 60 else if secs > 2_419_200 then 2_419_200 else secs
  }

  /** The configured punishment and its case. */
  ghost function Punish(s: State, user: User, punishment: Punishment): State {
    match punishment
    case ToKick => NewCase(s, Kick, user, None)
    case ToBan => NewCase(s, Ban, user, None).(bans := s.bans[user := Permanent])
    case ToTimeout(secs) => NewTimed(s, LiftTimeout, user, s.now + Clamp(secs))
  }

  function Tally(escalations: map<User, nat>, user: User): nat {
    if user in escalations then escalations[user] else 0
  }

  /** The punishment, then the reset of the warn counter. */
  ghost function Escalate(s: State, user: User, policy: Policy, resetOk: bool): State {
    var punished := Punish(s, user, policy.punishment);
    punished.(cases := if resetOk then ResetWarns(punished.cases, user) else punished.cases,
              escalations := s.escalations[user := Tally(s.escalations, user) + 1])
  }

  /** The warn's own case. */
  ghost function Warned(s: State, user: User, db: WarnDb): State {
    if db.caseOk then NewCase(s, Warn, user, None) else s
  }

  predicate Due(timed: map<nat, Row>, now: int, n: nat) {
    n in timed && timed[n].expires <= now
  }

  /** `order` lists the due rows, each once: the answer to the scan's query. */
  ghost predicate ScanOf(s: State, order: seq<nat>) {
    && (forall n | n in order :: Due(s.timed, s.now, n))
    && (forall n | Due(s.timed, s.now, n) :: n in order)
  }

  function Snapshot(timed: map<nat, Row>, order: seq<nat>): (q: seq<(nat, Row)>)
    requires forall n | n in order :: n in timed
    ensures |q| == |order| && forall i | 0 <= i < |q| :: q[i] == (order[i], timed[order[i]])
  {
    seq(|order|, i requires 0 <= i < |order| => (order[i], timed[order[i]]))
  }

  /** The sweeper's treatment of one scanned row, by its number alone. */
  function SweepRow(s: State, n: nat, r: Row, outcome: Outcome): State {
    if outcome == Transient && r.lift != LiftTimeout then s
    else
      s.(bans := if r.lift == LiftBan && outcome == Done then s.bans - {r.user} else s.bans,
         failed := if r.lift == LiftBan && outcome == Definitive then s.failed + {r.user} else s.failed,
         timed := s.timed - {n},
         cases := if n in s.cases then s.cases[n := s.cases[n].(active := false)] else s.cases)
  }

  ghost function Next(s: State, step: Step): State {
    match step
    case Tick(secs) => s.(now := s.now + secs)
    case DoTempBan(u, expires, apiOk, caseOk) =>
      if expires <= s.now || !apiOk then s
      else (if caseOk then NewTimed(s, LiftBan, u, expires) else FallbackTimed(s, LiftBan, u, expires))
             .(bans := s.bans[u := Temporary], failed := s.failed - {u}, orphaned := s.orphaned - {u})
    case DoTimed(lift, u, expires, apiOk) =>
      if expires <= s.now || !apiOk || lift == LiftBan then s else NewTimed(s, lift, u, expires)
    case DoUntimed(lift, u, apiOk) =>
      if !apiOk then s
      else
        var undone := s.(timed := DropRows(s.timed, u, lift),
                         bans := if lift == LiftBan then s.bans - {u} else s.bans);
        NewCase(undone, if lift == LiftBan then Unban else if lift == LiftMute then Unmute else Untimeout, u, None)
    case DoBan(u, apiOk) =>
      if !apiOk then s else NewCase(s, Ban, u, None).(bans := s.bans[u := Permanent])
    case DoWarn(u, policy, landed, db) =>
      var warned := Warned(s, u, db);
      if db.readOk && EscalationDue(warned.cases, u, policy) && landed
      then Escalate(warned, u, policy, db.resetOk) else warned
    case DeleteCase(n) =>
      if n !in s.cases then s
      else s.(cases := s.cases - {n}, timed := s.timed - {n},
              orphaned := if n in s.timed && s.timed[n].lift == LiftBan then s.orphaned + {s.timed[n].user} else s.orphaned)
    case LiftRow(n) =>
      if n !in s.timed || s.timed[n].lift == LiftTimeout then s
      else s.(timed := s.timed[n := s.timed[n].(expires := s.now)])
    case Scan(order) =>
      if s.queue != [] || !ScanOf(s, order) then s
      else s.(queue := Snapshot(s.timed, order))
    case Sweep(outcome) =>
      if s.queue == [] then s
      else SweepRow(s, s.queue[0].0, s.queue[0].1, outcome).(queue := s.queue[1..])
    case ByHand(u, banned) => s.(bans := if banned then s.bans[u := Permanent] else s.bans - {u})
  }

  ghost function Run(s: State, steps: seq<Step>): State
    decreases steps
  {
    if steps == [] then s else Run(Next(s, steps[0]), steps[1..])
  }

  // ---- the invariant ------------------------------------------------------

  predicate Queued(s: State, n: nat) {
    exists e | e in s.queue :: e.0 == n
  }

  /** Every row matches an existing, active case with the same target and kind. */
  ghost predicate RowsMatchCases(s: State) {
    forall n | n in s.timed ::
      && n in s.cases && s.cases[n].active
      && s.cases[n].target == s.timed[n].user && s.cases[n].kind == KindOf(s.timed[n].lift)
  }

  ghost predicate HasBanRow(timed: map<nat, Row>, u: User) {
    exists n :: n in timed && timed[n].user == u && timed[n].lift == LiftBan
  }

  /** Whoever is held by a temp-ban is waiting for the sweeper, or is accounted for. */
  ghost predicate NobodyStranded(s: State) {
    forall u | u in s.bans && s.bans[u] == Temporary ::
      HasBanRow(s.timed, u) || u in s.failed || u in s.orphaned
  }

  /** A scanned row still speaks of the case of that number, and its time has come. */
  ghost predicate QueueIsSound(s: State) {
    forall e | e in s.queue ::
      && e.0 in s.cases && s.cases[e.0].target == e.1.user && s.cases[e.0].kind == KindOf(e.1.lift)
      && (e.0 in s.timed ==> s.timed[e.0].expires <= s.now)
  }

  ghost predicate Inv(s: State) {
    RowsMatchCases(s) && NobodyStranded(s) && QueueIsSound(s)
  }

  /** Case writes succeed. */
  predicate Written(step: Step) {
    step.DoTempBan? ==> step.caseOk
  }

  /** And no case is deleted while the sweeper holds its row. */
  ghost predicate Safe(s: State, step: Step) {
    Written(step) && (step.DeleteCase? ==> !Queued(s, step.number))
  }

  lemma NewCaseKeepsInv(s: State, kind: Kind, target: User, expires: Option<int>)
    requires Inv(s)
    ensures Inv(NewCase(s, kind, target, expires))
  {
    var s' := NewCase(s, kind, target, expires);
    assert NextNumber(s.cases.Keys) !in s.cases;
    assert s'.timed == s.timed && s'.queue == s.queue;
  }

  lemma NewRow(timed: map<nat, Row>, n: nat, r: Row)
    requires n !in timed
    ensures forall u | HasBanRow(timed, u) :: HasBanRow(timed[n := r], u)
    ensures r.lift == LiftBan ==> HasBanRow(timed[n := r], r.user)
  {
    var timed' := timed[n := r];
    forall u | HasBanRow(timed, u) ensures HasBanRow(timed', u) {
      var k :| k in timed && timed[k].user == u && timed[k].lift == LiftBan;
      assert k in timed' && timed'[k] == timed[k];
    }
    assert n in timed' && timed'[n] == r;
  }

  lemma NewTimedKeepsInv(s: State, lift: Lift, target: User, expires: int)
    requires Inv(s)
    ensures Inv(NewTimed(s, lift, target, expires))
    ensures lift == LiftBan ==> HasBanRow(NewTimed(s, lift, target, expires).timed, target)
  {
    var n := NextNumber(s.cases.Keys);
    assert n !in s.cases && n !in s.timed;
    NewRow(s.timed, n, Row(target, lift, expires));
    var s' := NewTimed(s, lift, target, expires);
    assert s'.queue == s.queue;
  }

  lemma DropRowsKeepsInv(s: State, u: User, lift: Lift, s': State)
    requires Inv(s)
    requires s' == s.(timed := DropRows(s.timed, u, lift),
                      bans := if lift == LiftBan then s.bans - {u} else s.bans)
    ensures Inv(s')
  {
    forall v | v in s'.bans && s'.bans[v] == Temporary
      ensures HasBanRow(s'.timed, v) || v in s'.failed || v in s'.orphaned
    {
      if HasBanRow(s.timed, v) {
        var k :| k in s.timed && s.timed[k].user == v && s.timed[k].lift == LiftBan;
        assert k in s'.timed && s'.timed[k] == s.timed[k];
      }
    }
  }

  lemma DeleteKeepsInv(s: State, n: nat)
    requires Inv(s) && n in s.cases && !Queued(s, n)
    ensures Inv(Next(s, DeleteCase(n)))
  {
    var s' := Next(s, DeleteCase(n));
    RemovalKeepsRows(s, s', n);
    assert s'.queue == s.queue;
  }

  /** Dropping one row strands nobody who is not on that row. */
  lemma RemovalKeepsRows(s: State, s': State, n: nat)
    requires s'.timed == s.timed - {n}
    ensures forall u | HasBanRow(s.timed, u) ::
              HasBanRow(s'.timed, u) || (n in s.timed && s.timed[n].user == u && s.timed[n].lift == LiftBan)
  {
    forall u | HasBanRow(s.timed, u)
      ensures HasBanRow(s'.timed, u) || (n in s.timed && s.timed[n].user == u && s.timed[n].lift == LiftBan)
    {
      var k :| k in s.timed && s.timed[k].user == u && s.timed[k].lift == LiftBan;
      if k != n { assert k in s'.timed && s'.timed[k] == s.timed[k]; }
    }
  }

  lemma SweepStrandsNobody(s: State, outcome: Outcome)
    requires Inv(s) && s.queue != []
    ensures NobodyStranded(Next(s, Sweep(outcome)))
  {
    var s' := Next(s, Sweep(outcome));
    var (n, r) := s.queue[0];
    assert (n, r) in s.queue;
    if !(outcome == Transient && r.lift != LiftTimeout) {
      RemovalKeepsRows(s, s', n);
    }
  }

  lemma SweepKeepsInv(s: State, outcome: Outcome)
    requires Inv(s) && s.queue != []
    ensures Inv(Next(s, Sweep(outcome)))
  {
    SweepStrandsNobody(s, outcome);
    SweepMatches(s, outcome);
    hide NobodyStranded, RowsMatchCases, QueueIsSound, Next;
  }

  lemma SweepMatches(s: State, outcome: Outcome)
    requires RowsMatchCases(s) && QueueIsSound(s) && s.queue != []
    ensures var s' := Next(s, Sweep(outcome)); RowsMatchCases(s') && QueueIsSound(s')
  {
    var s' := Next(s, Sweep(outcome));
    SweepLeaves(s, outcome);
    hide Next, SweepRow;
    assert forall e | e in s'.queue :: e in s.queue;
    assert RowsMatchCases(s') by { hide QueueIsSound; }
    hide RowsMatchCases;
  }

  /** A treated row: what stays of the cases and the timed table. */
  lemma SweepLeaves(s: State, outcome: Outcome)
    requires s.queue != []
    ensures var s', n := Next(s, Sweep(outcome)), s.queue[0].0;
            && s'.queue == s.queue[1..] && s'.now == s.now
            && ((s'.timed == s.timed && s'.cases == s.cases) || s'.timed == s.timed - {n})
            && s'.cases.Keys == s.cases.Keys
            && (forall k | k in s.cases :: s'.cases[k].target == s.cases[k].target && s'.cases[k].kind == s.cases[k].kind)
            && (forall k | k in s.cases && k != n :: s'.cases[k] == s.cases[k])
  {
  }

  lemma ScanKeepsInv(s: State, order: seq<nat>)
    requires Inv(s) && s.queue == [] && ScanOf(s, order)
    ensures Inv(Next(s, Scan(order)))
  {
    var s' := Next(s, Scan(order));
    forall e | e in s'.queue ensures e.0 in s.timed && e.1 == s.timed[e.0] && s.timed[e.0].expires <= s.now {
      var i :| 0 <= i < |s'.queue| && s'.queue[i] == e;
      assert order[i] in order;
    }
  }

  lemma LiftKeepsInv(s: State, n: nat)
    requires Inv(s) && n in s.timed
    ensures Inv(s.(timed := s.timed[n := s.timed[n].(expires := s.now)]))
  {
    var s' := s.(timed := s.timed[n := s.timed[n].(expires := s.now)]);
    forall u | HasBanRow(s.timed, u) ensures HasBanRow(s'.timed, u) {
      var k :| k in s.timed && s.timed[k].user == u && s.timed[k].lift == LiftBan;
      assert k in s'.timed && s'.timed[k].user == u && s'.timed[k].lift == LiftBan;
    }
    assert s'.queue == s.queue;
  }

  lemma ResetKeepsInv(s: State, u: User, resetOk: bool, escalations: map<User, nat>)
    requires Inv(s)
    ensures Inv(s.(cases := if resetOk then ResetWarns(s.cases, u) else s.cases, escalations := escalations))
  {
    var s' := s.(cases := if resetOk then ResetWarns(s.cases, u) else s.cases, escalations := escalations);
    assert s'.timed == s.timed && s'.queue == s.queue;
  }

  lemma BansKeepInv(s: State, bans: map<User, Hold>)
    requires Inv(s)
    requires forall u | u in bans && bans[u] == Temporary :: u in s.bans && s.bans[u] == Temporary
    ensures Inv(s.(bans := bans))
  {
    var s' := s.(bans := bans);
    assert s'.timed == s.timed && s'.queue == s.queue;
  }

  lemma PunishKeepsInv(s: State, u: User, punishment: Punishment)
    requires Inv(s)
    ensures Inv(Punish(s, u, punishment))
  {
    hide Inv;
    match punishment
    case ToKick => NewCaseKeepsInv(s, Kick, u, None);
    case ToBan =>
      NewCaseKeepsInv(s, Ban, u, None);
      BansKeepInv(NewCase(s, Ban, u, None), s.bans[u := Permanent]);
    case ToTimeout(secs) => NewTimedKeepsInv(s, LiftTimeout, u, s.now + Clamp(secs));
  }

  lemma WarnKeepsInv(s: State, u: User, policy: Policy, landed: bool, db: WarnDb)
    requires Inv(s)
    ensures Inv(Next(s, DoWarn(u, policy, landed, db)))
  {
    hide Inv, Punish, ResetWarns, EscalationDue;
    NewCaseKeepsInv(s, Warn, u, None);
    var warned := Warned(s, u, db);
    PunishKeepsInv(warned, u, policy.punishment);
    ResetKeepsInv(Punish(warned, u, policy.punishment), u, db.resetOk, Escalate(warned, u, policy, db.resetOk).escalations);
  }

  lemma TempBanKeepsInv(s: State, u: User, expires: int)
    requires Inv(s) && expires > s.now
    ensures Inv(Next(s, DoTempBan(u, expires, true, true)))
  {
    NewTimedKeepsInv(s, LiftBan, u, expires);
    var a := NewTimed(s, LiftBan, u, expires);
    var s' := Next(s, DoTempBan(u, expires, true, true));
    assert s'.timed == a.timed && s'.queue == a.queue && s'.cases == a.cases;
  }

  /** Every safe step, in every order and with every answer, keeps the invariant. */
  lemma StepKeepsInv(s: State, step: Step)
    requires Inv(s) && Safe(s, step)
    ensures Inv(Next(s, step))
  {
    match step
    case Tick(_) =>
      assert Next(s, step).queue == s.queue;
    case DoTempBan(u, expires, apiOk, _) =>
      if expires > s.now && apiOk { TempBanKeepsInv(s, u, expires); }
    case DoTimed(lift, u, expires, _) =>
      NewTimedKeepsInv(s, lift, u, expires);
    case DoUntimed(lift, u, apiOk) =>
      if apiOk {
        var undone := s.(timed := DropRows(s.timed, u, lift),
                         bans := if lift == LiftBan then s.bans - {u} else s.bans);
        DropRowsKeepsInv(s, u, lift, undone);
        NewCaseKeepsInv(undone, if lift == LiftBan then Unban else if lift == LiftMute then Unmute else Untimeout, u, None);
      }
    case DoBan(u, _) =>
      NewCaseKeepsInv(s, Ban, u, None);
      BansKeepInv(NewCase(s, Ban, u, None), s.bans[u := Permanent]);
    case DoWarn(u, policy, landed, db) => WarnKeepsInv(s, u, policy, landed, db);
    case DeleteCase(n) => if n in s.cases { DeleteKeepsInv(s, n); }
    case LiftRow(n) => if n in s.timed { LiftKeepsInv(s, n); }
    case Scan(order) => if s.queue == [] && ScanOf(s, order) { ScanKeepsInv(s, order); }
    case Sweep(outcome) => if s.queue != [] { SweepKeepsInv(s, outcome); }
    case ByHand(u, banned) => BansKeepInv(s, if banned then s.bans[u := Permanent] else s.bans - {u});
  }

  /** The one deletion it does not survive. */
  lemma DeletionKeepsInvIff(s: State, n: nat)
    requires Inv(s) && n in s.cases
    ensures Inv(Next(s, DeleteCase(n))) <==> !Queued(s, n)
  {
    if Queued(s, n) {
      var s' := Next(s, DeleteCase(n));
      var e :| e in s.queue && e.0 == n;
      assert e in s'.queue && e.0 !in s'.cases;
    } else {
      DeleteKeepsInv(s, n);
    }
  }

  // ---- what the invariant says about runs ---------------------------------

  function Empty(now: int): State {
    State(now, map[], map[], map[], [], {}, {}, map[])
  }

  ghost predicate SafeRun(s: State, steps: seq<Step>)
    decreases steps
  {
    steps != [] ==> Safe(s, steps[0]) && SafeRun(Next(s, steps[0]), steps[1..])
  }

  lemma {:induction false} RunKeepsInv(s: State, steps: seq<Step>)
    requires Inv(s) && SafeRun(s, steps)
    ensures Inv(Run(s, steps))
    decreases steps
  {
    if steps != [] {
      hide Inv;
      StepKeepsInv(s, steps[0]);
      RunKeepsInv(Next(s, steps[0]), steps[1..]);
    }
  }

  predicate NoDeletion(steps: seq<Step>) {
    forall st | st in steps :: !st.DeleteCase?
  }

  lemma OrphansByDeletion(s: State, step: Step)
    requires !step.DeleteCase? && s.orphaned == {}
    ensures Next(s, step).orphaned == {}
  {
    if step.DoWarn? {
      WarnLeaves(s, step.user, step.policy, step.landed, step.db);
      hide Next;
    } else {
      hide NextNumber, DropRows, Escalate, Warned;
    }
  }

  /** What a warn touches besides cases: at most one timeout row and one permanent ban. */
  lemma WarnLeaves(s: State, v: User, policy: Policy, landed: bool, db: WarnDb)
    ensures var s' := Next(s, DoWarn(v, policy, landed, db));
            && s'.failed == s.failed && s'.orphaned == s.orphaned && s'.queue == s.queue && s'.now == s.now
            && (s'.bans == s.bans || s'.bans == s.bans[v := Permanent])
            && s.cases.Keys <= s'.cases.Keys
            && (forall k | k in s.cases :: (k in s'.timed <==> k in s.timed) && (k in s.timed ==> s'.timed[k] == s.timed[k]))
            && (forall k | k in s'.timed :: (k in s.timed && s'.timed[k] == s.timed[k]) || s'.timed[k].lift == LiftTimeout)
  {
    hide EscalationDue;
    var warned := Warned(s, v, db);
    assert s.cases.Keys <= warned.cases.Keys;
    PunishLeaves(warned, v, policy.punishment);
    hide Punish;
  }

  lemma PunishLeaves(s: State, v: User, punishment: Punishment)
    ensures var s' := Punish(s, v, punishment);
            && s'.failed == s.failed && s'.orphaned == s.orphaned && s'.queue == s.queue && s'.now == s.now
            && (s'.bans == s.bans || s'.bans == s.bans[v := Permanent])
            && s.cases.Keys <= s'.cases.Keys
            && (forall k | k in s.cases :: (k in s'.timed <==> k in s.timed) && (k in s.timed ==> s'.timed[k] == s.timed[k]))
            && (forall k | k in s'.timed :: (k in s.timed && s'.timed[k] == s.timed[k]) || s'.timed[k].lift == LiftTimeout)
  {
  }

  lemma {:induction false} NoOrphansWithoutDeletion(s: State, steps: seq<Step>)
    requires NoDeletion(steps) && s.orphaned == {}
    ensures Run(s, steps).orphaned == {}
    decreases steps
  {
    if steps != [] {
      hide Next;
      assert steps[0] in steps;
      OrphansByDeletion(s, steps[0]);
      NoOrphansWithoutDeletion(Next(s, steps[0]), steps[1..]);
    }
  }

  /** From an empty log, any interleaving in which cases are written and none is
      deleted: whoever a temp-ban still holds has a pending row, or a lift of theirs
      was refused for good. */
  lemma NoStrandedTempBan(now: int, steps: seq<Step>, u: User)
    requires NoDeletion(steps)
    requires forall st | st in steps :: Written(st)
    ensures var s := Run(Empty(now), steps);
            u in s.bans && s.bans[u] == Temporary ==> HasBanRow(s.timed, u) || u in s.failed
  {
    assert Inv(Empty(now));
    WithoutDeletionIsSafe(Empty(now), steps);
    RunKeepsInv(Empty(now), steps);
    NoOrphansWithoutDeletion(Empty(now), steps);
  }

  lemma {:induction false} WithoutDeletionIsSafe(s: State, steps: seq<Step>)
    requires NoDeletion(steps) && forall st | st in steps :: Written(st)
    ensures SafeRun(s, steps)
    decreases steps
  {
    if steps != [] {
      assert steps[0] in steps;
      WithoutDeletionIsSafe(Next(s, steps[0]), steps[1..]);
    }
  }

  // ---- with any deletion --------------------------------------------------

  lemma NewCaseKeepsRows(s: State, kind: Kind, target: User, expires: Option<int>)
    requires RowsMatchCases(s)
    ensures RowsMatchCases(NewCase(s, kind, target, expires))
  {
    assert NextNumber(s.cases.Keys) !in s.cases;
    hide NextNumber;
  }

  lemma NewTimedKeepsRows(s: State, lift: Lift, target: User, expires: int)
    requires RowsMatchCases(s)
    ensures RowsMatchCases(NewTimed(s, lift, target, expires))
  {
    assert NextNumber(s.cases.Keys) !in s.cases;
    hide NextNumber;
  }

  lemma PunishKeepsRows(s: State, u: User, punishment: Punishment)
    requires RowsMatchCases(s)
    ensures RowsMatchCases(Punish(s, u, punishment))
  {
    hide NewCase, NewTimed;
    match punishment
    case ToKick => NewCaseKeepsRows(s, Kick, u, None);
    case ToBan => NewCaseKeepsRows(s, Ban, u, None);
    case ToTimeout(secs) => NewTimedKeepsRows(s, LiftTimeout, u, s.now + Clamp(secs));
  }

  lemma WarnKeepsRows(s: State, u: User, policy: Policy, landed: bool, db: WarnDb)
    requires RowsMatchCases(s)
    ensures RowsMatchCases(Next(s, DoWarn(u, policy, landed, db)))
  {
    NewCaseKeepsRows(s, Warn, u, None);
    var warned := Warned(s, u, db);
    assert RowsMatchCases(warned);
    hide NewCase, Warned, ResetWarns, EscalationDue;
    PunishKeepsRows(warned, u, policy.punishment);
    hide Punish;
    ResetKeepsRows(Punish(warned, u, policy.punishment), u);
  }

  lemma ResetKeepsRows(s: State, u: User)
    requires RowsMatchCases(s)
    ensures RowsMatchCases(s.(cases := ResetWarns(s.cases, u)))
  {
  }

  lemma SweepKeepsRows(s: State, outcome: Outcome)
    requires RowsMatchCases(s) && s.queue != []
    ensures RowsMatchCases(Next(s, Sweep(outcome)))
  {
    SweepLeaves(s, outcome);
    hide Next;
  }

  /** Whatever is deleted, even a case whose row the sweeper holds: as long as cases are
      written, every row matches an active case of its user and kind. */
  lemma StepKeepsRows(s: State, step: Step)
    requires RowsMatchCases(s) && Written(step)
    ensures RowsMatchCases(Next(s, step))
  {
    match step
    case DoTempBan(u, expires, _, _) => NewTimedKeepsRows(s, LiftBan, u, expires); hide NewTimed;
    case DoTimed(lift, u, expires, _) => NewTimedKeepsRows(s, lift, u, expires); hide NewTimed;
    case DoUntimed(lift, u, apiOk) =>
      var undone := s.(timed := DropRows(s.timed, u, lift), bans := if lift == LiftBan then s.bans - {u} else s.bans);
      NewCaseKeepsRows(undone, if lift == LiftBan then Unban else if lift == LiftMute then Unmute else Untimeout, u, None);
      hide NewCase, DropRows;
    case DoBan(u, _) => NewCaseKeepsRows(s, Ban, u, None); hide NewCase;
    case DoWarn(u, policy, landed, db) => WarnKeepsRows(s, u, policy, landed, db); hide Next;
    case Sweep(outcome) => if s.queue != [] { SweepKeepsRows(s, outcome); } hide SweepRow;
    case _ =>
  }

  lemma {:induction false} RunKeepsRows(s: State, steps: seq<Step>)
    requires RowsMatchCases(s) && forall st | st in steps :: Written(st)
    ensures RowsMatchCases(Run(s, steps))
    decreases |steps|
  {
    if steps != [] {
      hide Next, RowsMatchCases;
      assert steps[0] in steps;
      StepKeepsRows(s, steps[0]);
      RunKeepsRows(Next(s, steps[0]), steps[1..]);
    }
  }

  // ---- what a pass clears -------------------------------------------------

  /** Row `n`, while it is there, is one the sweeper still holds. */
  ghost predicate StillHeld(s: State, n: nat) {
    n in s.cases && (n in s.timed ==> Queued(s, n))
  }

  /** Nothing that would put the row off or put another under its number. */
  predicate Clearing(step: Step, n: nat) {
    Written(step) && !step.Scan? && step != Sweep(Transient) && step != DeleteCase(n)
  }

  lemma NothingNewUnder(s: State, step: Step, n: nat)
    requires n in s.cases && Written(step) && step != DeleteCase(n) && !step.Sweep? && !step.Scan?
    ensures var s' := Next(s, step);
            n in s'.cases && (n in s'.timed ==> n in s.timed) && s'.queue == s.queue
  {
    if step.DoWarn? {
      WarnLeaves(s, step.user, step.policy, step.landed, step.db);
      hide Next;
    } else {
      assert NextNumber(s.cases.Keys) != n;
      hide NextNumber, Escalate, Warned;
    }
  }

  lemma SweepClears(s: State, outcome: Outcome, n: nat)
    requires StillHeld(s, n) && outcome != Transient
    ensures StillHeld(Next(s, Sweep(outcome)), n)
  {
    if s.queue != [] {
      var s' := Next(s, Sweep(outcome));
      if n in s'.timed {
        var e :| e in s.queue && e.0 == n;
        assert e == s.queue[0] || e in s'.queue;
      }
    }
  }

  lemma {:induction false} StaysHeld(s: State, steps: seq<Step>, n: nat)
    requires StillHeld(s, n) && forall st | st in steps :: Clearing(st, n)
    ensures StillHeld(Run(s, steps), n)
    decreases |steps|
  {
    if steps != [] {
      hide Next;
      assert steps[0] in steps;
      if steps[0].Sweep? {
        hide StillHeld;
        SweepClears(s, steps[0].outcome, n);
      } else {
        NothingNewUnder(s, steps[0], n);
      }
      StaysHeld(Next(s, steps[0]), steps[1..], n);
    }
  }

  /** A pass that ends without a transient failure, with commands and deletions of other
      cases in between, leaves no row it scanned: from any state. */
  lemma CleanPassClears(s: State, order: seq<nat>, steps: seq<Step>, n: nat)
    requires s.queue == [] && ScanOf(s, order) && n in order && n in s.cases
    requires forall st | st in steps :: Clearing(st, n)
    requires Run(Next(s, Scan(order)), steps).queue == []
    ensures n !in Run(Next(s, Scan(order)), steps).timed
  {
    var s1 := Next(s, Scan(order));
    var i :| 0 <= i < |order| && order[i] == n;
    assert s1.queue[i] in s1.queue && s1.queue[i].0 == n;
    StaysHeld(s1, steps, n);
    hide Run, Next;
  }

  // ---- why deleting a queued case is unsafe -------------------------------

  /** The rest of a pass with no command in between. */
  function Drain(s: State, outcomes: seq<Outcome>): State
    requires |outcomes| == |s.queue|
    decreases |outcomes|
  {
    if outcomes == [] then s
    else Drain(SweepRow(s, s.queue[0].0, s.queue[0].1, outcomes[0]).(queue := s.queue[1..]), outcomes[1..])
  }

  /** Some scanned row numbered `n` is lifted or given up on. */
  predicate ClearedBy(queue: seq<(nat, Row)>, outcomes: seq<Outcome>, n: nat)
    requires |outcomes| == |queue|
  {
    queue != [] &&
    ((queue[0].0 == n && (outcomes[0] != Transient || queue[0].1.lift == LiftTimeout))
     || ClearedBy(queue[1..], outcomes[1..], n))
  }

  lemma {:induction false} DrainKeepsRowIff(s: State, outcomes: seq<Outcome>, n: nat)
    requires |outcomes| == |s.queue|
    ensures n in Drain(s, outcomes).timed <==> n in s.timed && !ClearedBy(s.queue, outcomes, n)
    decreases |outcomes|
  {
    if outcomes != [] {
      DrainKeepsRowIff(SweepRow(s, s.queue[0].0, s.queue[0].1, outcomes[0]).(queue := s.queue[1..]), outcomes[1..], n);
    }
  }

  /** Under the invariant that number is never in the queue, because every queued
      case still exists; deleting one is what frees its number for reuse. */
  lemma FreshNumberIsNotQueued(s: State)
    requires Inv(s)
    ensures !Queued(s, NextNumber(s.cases.Keys))
  {
  }

  /** Just after the case of the row being swept is deleted. */
  function Race(): State {
    Empty(10).(bans := map[7 := Temporary], queue := [(1, Row(7, LiftBan, 5))], orphaned := {7})
  }

  lemma RaceIsReachable()
    ensures Next(Next(Next(Next(Empty(0), DoTempBan(7, 5, true, true)), Tick(10)), Scan([1])), DeleteCase(1)) == Race()
  {
    var row := Row(7, LiftBan, 5);
    var s1 := Next(Empty(0), DoTempBan(7, 5, true, true));
    assert s1 == Empty(0).(cases := map[1 := Case(TempBan, 7, true, Some(5))], timed := map[1 := row],
                           bans := map[7 := Temporary]);
    var s2 := s1.(now := 10);
    assert ScanOf(s2, [1]);
    var s3 := Next(s2, Scan([1]));
    assert s3.queue == [(1, row)];
    assert Next(s3, DeleteCase(1)).cases == map[] && Next(s3, DeleteCase(1)).timed == map[];
  }

  lemma TempBanInRace()
    ensures Next(Race(), DoTempBan(8, 100, true, true)) ==
              Race().(cases := map[1 := Case(TempBan, 8, true, Some(100))], timed := map[1 := Row(8, LiftBan, 100)],
                      bans := map[7 := Temporary, 8 := Temporary])
  {
    assert NextNumber(Race().cases.Keys) == 1;
    assert map[7 := Temporary][8 := Temporary] == map[7 := Temporary, 8 := Temporary];
  }

  /** The race itself: temp-ban 7, let it expire, scan, delete its case, temp-ban 8,
      sweep. Number 1 is reused, so 8's row goes 90 seconds early and 8 stays banned. */
  lemma DeletedQueuedCaseStrands()
    ensures Next(Next(Next(Next(Empty(0), DoTempBan(7, 5, true, true)), Tick(10)), Scan([1])), DeleteCase(1)) == Race()
    ensures var s := Next(Next(Race(), DoTempBan(8, 100, true, true)), Sweep(Done));
            8 in s.bans && s.bans[8] == Temporary && s.timed == map[] && 8 !in s.failed && 8 !in s.orphaned
  {
    RaceIsReachable();
    TempBanInRace();
    hide Next;
    var s := Next(Race(), DoTempBan(8, 100, true, true));
    assert s.queue == [(1, Row(7, LiftBan, 5))];
    var s' := SweepRow(s, 1, Row(7, LiftBan, 5), Done).(queue := []);
    assert Next(s, Sweep(Done)) == s' by { SweepOne(s, Done); }
    assert s'.timed == map[];
  }

  lemma SweepOne(s: State, outcome: Outcome)
    requires |s.queue| == 1
    ensures Next(s, Sweep(outcome)) == SweepRow(s, s.queue[0].0, s.queue[0].1, outcome).(queue := [])
  {
  }

  /** A temp-ban whose case could not be written takes number 1; the next temp-ban's
      case takes 1 as well and overwrites the row: the first user is stranded. */
  lemma FallbackNumberStrands()
    ensures var s := Next(Next(Empty(0), DoTempBan(7, 50, true, false)), DoTempBan(8, 100, true, true));
            7 in s.bans && s.bans[7] == Temporary && !HasBanRow(s.timed, 7) && 7 !in s.failed && 7 !in s.orphaned
  {
    var s1 := Next(Empty(0), DoTempBan(7, 50, true, false));
    assert s1.cases == map[] && s1.timed == map[1 := Row(7, LiftBan, 50)];
    assert NextNumber(s1.cases.Keys) == 1;
    var s2 := Next(s1, DoTempBan(8, 100, true, true));
    assert s2.timed == map[1 := Row(8, LiftBan, 100)];
  }
}
