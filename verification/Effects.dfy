/**
 What the moderation commands and the sweeper do to the rows, the cases and the bans, record
 by record: who is lifted, who is left alone, and what is scanned afterwards.
 */
module Effects {
  import opened Base
  import opened Moderation
  import opened Stranding
  import opened Early

  /** Every row but that of `n` is as it was. */
  ghost predicate OtherRowsStay(s: State, t: State, n: nat) {
    forall k: nat | k != n :: (k in t.timed <==> k in s.timed) && (k in s.timed ==> t.timed[k] == s.timed[k])
  }

  ghost predicate OtherCasesStay(s: State, t: State, n: nat) {
    forall k: nat | k != n :: (k in t.cases <==> k in s.cases) && (k in s.cases ==> t.cases[k] == s.cases[k])
  }

  ghost predicate OtherBansStay(s: State, t: State, u: User) {
    forall v: User | v != u :: (v in t.bans <==> v in s.bans) && (v in s.bans ==> t.bans[v] == s.bans[v])
  }

  /** Nothing moved but rows, cases and bans. */
  ghost predicate HistoryStays(s: State, t: State) {
    t.now == s.now && t.queue == s.queue && t.failed == s.failed && t.orphaned == s.orphaned
    && t.escalations == s.escalations
  }

  /** A case logged under a number above every other. */
  ghost predicate Logged(s: State, t: State, n: nat, c: Case) {
    n in t.cases && t.cases[n] == c && (forall k | k in s.cases :: k < n) && OtherCasesStay(s, t, n)
  }

  lemma FreshCase(s: State, kind: Kind, target: User, expires: Option<int>) returns (n: nat)
    ensures var t := NewCase(s, kind, target, expires);
            && Logged(s, t, n, Case(kind, target, true, expires)) && n == NextNumber(s.cases.Keys)
            && t == s.(cases := t.cases)
  {
    n := NextNumber(s.cases.Keys);
    assert forall k | k in s.cases :: k in s.cases.Keys;
    hide NextNumber;
  }

  // ---- lifting by command -------------------------------------------------

  function UndoneAs(lift: Lift): Kind {
    match lift
    case LiftBan => Unban
    case LiftMute => Unmute
    case LiftTimeout => Untimeout
  }

  /** `unban`, `unmute` and `untimeout`, in any state: no row of that user and kind is left
      and every other row is as it was; the ban, if it is one, is gone; and a case is logged. */
  lemma UntimedClears(s: State, lift: Lift, u: User)
    ensures var t := Next(s, DoUntimed(lift, u, true));
            && (forall n: nat :: n in t.timed <==> n in s.timed && !(s.timed[n].user == u && s.timed[n].lift == lift))
            && (forall n | n in t.timed :: t.timed[n] == s.timed[n])
            && OtherBansStay(s, t, u) && (if lift == LiftBan then u !in t.bans else t.bans == s.bans)
            && (exists n :: Logged(s, t, n, Case(UndoneAs(lift), u, true, None)))
            && HistoryStays(s, t)
  {
    var undone := s.(timed := DropRows(s.timed, u, lift), bans := if lift == LiftBan then s.bans - {u} else s.bans);
    var n := FreshCase(undone, UndoneAs(lift), u, None);
    assert Logged(s, Next(s, DoUntimed(lift, u, true)), n, Case(UndoneAs(lift), u, true, None)) by {
      hide DropRows, NewCase;
    }
    hide NewCase, Logged;
  }

  /** The dashboard's lift: a mute or a temp-ban is taken up by the next scan, a timeout only
      if it was due already; the record stays what it was, and so does every other. */
  lemma LiftedIsScannedIff(s: State, n: nat, order: seq<nat>)
    requires n in s.timed && ScanOf(Next(s, LiftRow(n)), order)
    ensures n in order <==> s.timed[n].lift != LiftTimeout || s.timed[n].expires <= s.now
    ensures var t := Next(s, LiftRow(n));
            && n in t.timed && t.timed[n].user == s.timed[n].user && t.timed[n].lift == s.timed[n].lift
            && OtherRowsStay(s, t, n) && t == s.(timed := t.timed)
            && (s.timed[n].lift == LiftTimeout ==> t.timed[n].expires == s.timed[n].expires)
  {
  }

  /** A deleted case takes the row of its number with it, and nothing else. */
  lemma DeletedIsGone(s: State, n: nat)
    requires n in s.cases
    ensures var t := Next(s, DeleteCase(n));
            && n !in t.cases && n !in t.timed && OtherCasesStay(s, t, n) && OtherRowsStay(s, t, n)
            && t.bans == s.bans && t.queue == s.queue && t.now == s.now
  {
  }

  // ---- imposing -----------------------------------------------------------

  /** A row for `u` under number `n`, the others untouched. */
  ghost predicate RowAdded(s: State, t: State, n: nat, r: Row) {
    n in t.timed && t.timed[n] == r && OtherRowsStay(s, t, n)
  }

  lemma TimedCase(s: State, lift: Lift, u: User, expires: int) returns (n: nat)
    ensures var t := NewTimed(s, lift, u, expires);
            && n == NextNumber(s.cases.Keys) && RowAdded(s, t, n, Row(u, lift, expires))
            && Logged(s, t, n, Case(KindOf(lift), u, true, Some(expires)))
            && t == s.(cases := t.cases, timed := t.timed)
  {
    n := FreshCase(s, KindOf(lift), u, Some(expires));
    hide NextNumber, KindOf;
  }

  /** A temp-ban bans, logs its case, and watches under the case's number until the given
      time: a scan from then on lists it, and none before. When the case could not be written
      the row takes a number above every other row's. */
  lemma TempBanIsScannedIff(s: State, u: User, expires: int, caseOk: bool, wait: nat, order: seq<nat>) returns (n: nat)
    requires expires > s.now && ScanOf(Next(Next(s, DoTempBan(u, expires, true, caseOk)), Tick(wait)), order)
    ensures n in order <==> expires <= s.now + wait
    ensures var t := Next(s, DoTempBan(u, expires, true, caseOk));
            && (if caseOk then Logged(s, t, n, Case(TempBan, u, true, Some(expires)))
                else t.cases == s.cases && forall k | k in s.timed :: k < n)
            && RowAdded(s, t, n, Row(u, LiftBan, expires))
            && u in t.bans && t.bans[u] == Temporary && OtherBansStay(s, t, u)
  {
    if caseOk {
      n := TimedCase(s, LiftBan, u, expires);
    } else {
      n := NextNumber(s.timed.Keys);
      assert forall k | k in s.timed :: k in s.timed.Keys;
    }
    hide NewTimed, NextNumber;
  }

  /** The same for mutes and timeouts, which ban nobody; a date that has passed is refused. */
  lemma TimedIsScannedIff(s: State, lift: Lift, u: User, expires: int, wait: nat, order: seq<nat>) returns (n: nat)
    requires lift != LiftBan && ScanOf(Next(Next(s, DoTimed(lift, u, expires, true)), Tick(wait)), order)
    ensures expires > s.now ==> (n in order <==> expires <= s.now + wait)
    ensures var t := Next(s, DoTimed(lift, u, expires, true));
            if expires > s.now then
              && Logged(s, t, n, Case(if lift == LiftMute then Mute else Timeout, u, true, Some(expires)))
              && RowAdded(s, t, n, Row(u, lift, expires)) && t.bans == s.bans && HistoryStays(s, t)
            else t == s
  {
    n := TimedCase(s, lift, u, expires);
    hide NewTimed;
  }

  /** A ban by command is for good and adds no row. */
  lemma BanIsPermanent(s: State, u: User)
    ensures var t := Next(s, DoBan(u, true));
            && u in t.bans && t.bans[u] == Permanent && OtherBansStay(s, t, u) && t.timed == s.timed && HistoryStays(s, t)
            && exists n :: Logged(s, t, n, Case(Ban, u, true, None))
  {
    var n := FreshCase(s, Ban, u, None);
    hide NewCase;
    assert Logged(s, Next(s, DoBan(u, true)), n, Case(Ban, u, true, None));
  }

  // ---- escalation ---------------------------------------------------------

  /** The seconds a timeout lasts: within a minute and 28 days, and as configured if that is. */
  ghost predicate TimeoutLasts(secs: nat, lasts: int) {
    && 60 <= lasts <= 28 * 24 * 3600
    && (60 <= secs <= 28 * 24 * 3600 ==> lasts == secs)
    && (secs < 60 ==> lasts == 60) && (secs > 28 * 24 * 3600 ==> lasts == 28 * 24 * 3600)
  }

  /** What a punishment leaves behind. */
  ghost predicate Punished(s: State, t: State, u: User, punishment: Punishment) {
    match punishment
    case ToKick => t.bans == s.bans && t.timed == s.timed
    case ToBan => u in t.bans && t.bans[u] == Permanent && OtherBansStay(s, t, u) && t.timed == s.timed
    case ToTimeout(secs) =>
      && t.bans == s.bans
      && exists n: nat ::
           n !in s.cases && n in t.timed && t.timed[n].user == u && t.timed[n].lift == LiftTimeout
           && TimeoutLasts(secs, t.timed[n].expires - s.now) && OtherRowsStay(s, t, n)
  }

  lemma PunishPunishes(s: State, u: User, punishment: Punishment)
    ensures Punished(s, Punish(s, u, punishment), u, punishment)
  {
    match punishment
    case ToKick =>
    case ToBan =>
    case ToTimeout(secs) =>
      var n := TimedCase(s, LiftTimeout, u, s.now + Clamp(secs));
      assert n !in s.cases;
      hide NewTimed, NextNumber;
  }

  /** The active warns the member has once this one is written. */
  function WarnsWith(s: State, u: User, written: bool): nat {
    |ActiveWarns(s.cases, u)| + if written then 1 else 0
  }

  lemma WarnsOnceWritten(s: State, u: User, db: WarnDb)
    ensures |ActiveWarns(Warned(s, u, db).cases, u)| == WarnsWith(s, u, db.caseOk)
  {
    if db.caseOk {
      var n := FreshCase(s, Warn, u, None);
      OneWarnMore(s.cases, Warned(s, u, db).cases, u, n);
      hide NewCase;
    }
  }

  lemma OneWarnMore(before: map<nat, Case>, after: map<nat, Case>, u: User, n: nat)
    requires n !in before && after == before[n := Case(Warn, u, true, None)]
    ensures |ActiveWarns(after, u)| == |ActiveWarns(before, u)| + 1
  {
    assert ActiveWarns(after, u) == ActiveWarns(before, u) + {n};
  }

  /** A warn punishes if and only if the policy could be read, has a threshold, the member's
      active warns with this one reach it and the punishment lands. Else nobody is banned or
      timed out, and all that comes of it is its case. */
  lemma WarnPunishesIff(s: State, u: User, policy: Policy, landed: bool, db: WarnDb)
    ensures var t := Next(s, DoWarn(u, policy, landed, db));
            if db.readOk && landed && 0 < policy.threshold <= WarnsWith(s, u, db.caseOk)
            then Punished(s, t, u, policy.punishment) && Tally(t.escalations, u) == Tally(s.escalations, u) + 1
            else t == s.(cases := t.cases) && if db.caseOk then exists n :: Logged(s, t, n, Case(Warn, u, true, None)) else t == s
  {
    var warned := Warned(s, u, db);
    WarnsOnceWritten(s, u, db);
    PunishPunishes(warned, u, policy.punishment);
    WarnedPunished(s, u, db, Punish(warned, u, policy.punishment), policy.punishment);
    if db.caseOk {
      var n := FreshCase(s, Warn, u, None);
      assert Logged(s, warned, n, Case(Warn, u, true, None));
    }
    hide Punish, NewCase, WarnsWith, ActiveWarns, Logged;
    assert warned == s.(cases := warned.cases);
    hide Warned;
    PunishedApart(s, Punish(warned, u, policy.punishment), Next(s, DoWarn(u, policy, landed, db)), u, policy.punishment);
    hide Punished, ResetWarns;
  }

  lemma WarnedPunished(s: State, u: User, db: WarnDb, t: State, punishment: Punishment)
    requires Punished(Warned(s, u, db), t, u, punishment)
    ensures Punished(s, t, u, punishment)
  {
    assert forall n | n in s.cases :: n in Warned(s, u, db).cases;
    var warned := Warned(s, u, db);
    assert warned == s.(cases := warned.cases);
    hide NewCase, Warned, TimeoutLasts;
  }

  /** A punishment is told from the rows and the bans. */
  lemma PunishedApart(s: State, t: State, t': State, u: User, punishment: Punishment)
    requires Punished(s, t, u, punishment)
    ensures t'.timed == t.timed && t'.bans == t.bans ==> Punished(s, t', u, punishment)
  {
    hide TimeoutLasts;
  }

  // ---- a pass -------------------------------------------------------------

  /** One sweep after the other, every lift going through. */
  function Sweeps(n: nat): seq<Step> {
    if n == 0 then [] else [Sweep(Done)] + Sweeps(n - 1)
  }

  /** The sweeper holds a ban of `u`. */
  ghost predicate BanQueued(s: State, u: User) {
    exists e | e in s.queue :: BanRowOf(e.1, u)
  }

  /** Rows and cases of the sweeper's numbers are dealt with, bans it holds lifted. */
  ghost predicate Treated(s: State, t: State) {
    && (forall n: nat :: n in t.timed <==> n in s.timed && !Queued(s, n))
    && (forall n | n in t.timed :: t.timed[n] == s.timed[n])
    && t.cases.Keys == s.cases.Keys
    && (forall n | n in s.cases :: t.cases[n] == if Queued(s, n) then s.cases[n].(active := false) else s.cases[n])
    && (forall u: User :: u in t.bans <==> u in s.bans && !BanQueued(s, u))
    && (forall u | u in t.bans :: t.bans[u] == s.bans[u])
    && t.failed == s.failed
  }

  lemma QueueHead(s: State, t: State)
    requires s.queue != [] && t.queue == s.queue[1..]
    ensures forall n: nat :: Queued(s, n) <==> s.queue[0].0 == n || Queued(t, n)
    ensures forall u: User :: BanQueued(s, u) <==> BanRowOf(s.queue[0].1, u) || BanQueued(t, u)
  {
    assert forall e :: e in s.queue <==> e == s.queue[0] || e in t.queue;
  }

  /** One row: gone, its case inactive, its ban lifted, and nothing else. A transient failure
      leaves everything for the next pass, and a definitive one leaves only the ban. */
  lemma SweptRow(s: State, outcome: Outcome)
    requires s.queue != []
    ensures var t, n, r := Next(s, Sweep(outcome)), s.queue[0].0, s.queue[0].1;
            if outcome == Transient && r.lift != LiftTimeout then t == s.(queue := s.queue[1..])
            else
              && t.queue == s.queue[1..] && t.now == s.now
              && n !in t.timed && OtherRowsStay(s, t, n)
              && OtherCasesStay(s, t, n) && (n in t.cases <==> n in s.cases)
              && (n in s.cases ==> t.cases[n] == Case(s.cases[n].kind, s.cases[n].target, false, s.cases[n].expires))
              && OtherBansStay(s, t, r.user)
              && (if r.lift == LiftBan && outcome == Done then r.user !in t.bans else t.bans == s.bans)
              && (forall u: User :: u in t.failed <==> u in s.failed || (BanRowOf(r, u) && outcome == Definitive))
  {
  }

  lemma {:induction false} DrainTreats(s: State)
    ensures Run(s, Sweeps(|s.queue|)).queue == [] && Treated(s, Run(s, Sweeps(|s.queue|)))
    decreases |s.queue|
  {
    if s.queue == [] {
      assert forall n: nat :: !Queued(s, n);
      assert forall u: User :: !BanQueued(s, u);
    } else {
      var next := Next(s, Sweep(Done));
      SweptRow(s, Done);
      assert next.queue == s.queue[1..] && next.failed == s.failed;
      QueueHead(s, next);
      assert Sweeps(|s.queue|)[1..] == Sweeps(|s.queue| - 1) && Sweeps(|s.queue|)[0] == Sweep(Done);
      hide Next, Queued, BanQueued;
      DrainTreats(next);
      TreatedOne(s, next, Run(next, Sweeps(|next.queue|)));
    }
  }

  lemma TreatedOne(s: State, next: State, t: State)
    requires s.queue != [] && Treated(next, t) && next.failed == s.failed
    requires forall n: nat :: Queued(s, n) <==> s.queue[0].0 == n || Queued(next, n)
    requires forall u: User :: BanQueued(s, u) <==> BanRowOf(s.queue[0].1, u) || BanQueued(next, u)
    requires var n, r := s.queue[0].0, s.queue[0].1;
             && n !in next.timed && OtherRowsStay(s, next, n)
             && OtherCasesStay(s, next, n) && (n in next.cases <==> n in s.cases)
             && (n in s.cases ==> next.cases[n] == s.cases[n].(active := false))
             && OtherBansStay(s, next, r.user)
             && (if r.lift == LiftBan then r.user !in next.bans else next.bans == s.bans)
    ensures Treated(s, t)
  {
    hide Queued, BanQueued;
    assert t.cases.Keys == s.cases.Keys by {
      assert forall k: nat :: k in next.cases <==> k in s.cases;
    }
  }

  /** A whole pass, every lift going through: exactly the due rows go, their cases become
      inactive, and exactly those are unbanned who have a ban row that is due. Whatever is
      not due stays. */
  lemma PassLifts(s: State, order: seq<nat>)
    requires s.queue == [] && ScanOf(s, order)
    ensures var t := Run(Next(s, Scan(order)), Sweeps(|order|));
            && t.queue == [] && t.failed == s.failed
            && (forall n: nat :: n in t.timed <==> n in s.timed && s.timed[n].expires > s.now)
            && (forall n | n in t.timed :: t.timed[n] == s.timed[n])
            && (forall n | n in s.cases ::
                  n in t.cases && t.cases[n] == if Due(s.timed, s.now, n) then s.cases[n].(active := false) else s.cases[n])
            && (forall u: User :: u in t.bans <==>
                  u in s.bans && !exists n | Due(s.timed, s.now, n) :: BanRowOf(s.timed[n], u))
  {
    var scanned := Next(s, Scan(order));
    assert scanned == s.(queue := Snapshot(s.timed, order));
    DrainTreats(scanned);
    ScanHolds(s, order);
    hide Run, Next, Queued, BanQueued, BanRowOf;
  }

  lemma ScanHolds(s: State, order: seq<nat>)
    requires s.queue == [] && ScanOf(s, order)
    ensures var scanned := s.(queue := Snapshot(s.timed, order));
            && (forall n: nat :: Queued(scanned, n) <==> Due(s.timed, s.now, n))
            && (forall u: User :: BanQueued(scanned, u) <==> exists n | Due(s.timed, s.now, n) :: BanRowOf(s.timed[n], u))
  {
    var q := Snapshot(s.timed, order);
    forall e | e in q ensures Due(s.timed, s.now, e.0) && e.1 == s.timed[e.0] {
      var i :| 0 <= i < |q| && q[i] == e;
      assert order[i] in order;
    }
    forall n: nat | Due(s.timed, s.now, n) ensures (n, s.timed[n]) in q {
      var i :| 0 <= i < |order| && order[i] == n;
      assert q[i] == (n, s.timed[n]);
    }
  }

  // ---- a ban after an unban -----------------------------------------------

  /** Only a temp-ban of `u` adds a ban row of theirs, and only a row is ever scanned. */
  lemma BanRowsComeFromTempBans(s: State, step: Step, u: User)
    requires !HasBanRow(s.timed, u) && !(step.DoTempBan? && step.user == u)
    ensures !HasBanRow(Next(s, step).timed, u) && (BanQueued(Next(s, step), u) ==> BanQueued(s, u))
  {
    match step
    case DoWarn(v, policy, landed, db) => WarnLeaves(s, v, policy, landed, db); hide Next;
    case Scan(order) => if s.queue == [] && ScanOf(s, order) { ScanHolds(s, order); } hide Snapshot;
    case Sweep(outcome) => if s.queue != [] { SweptRow(s, outcome); QueueHead(s, Next(s, Sweep(outcome))); } hide Next, BanQueued;
    case _ => hide NextNumber; assert Next(s, step).queue == s.queue;
  }

  lemma {:induction false} NoBanRowComesBack(s: State, steps: seq<Step>, u: User)
    requires !HasBanRow(s.timed, u) && !Renews(steps, u)
    ensures !HasBanRow(Run(s, steps).timed, u) && (BanQueued(Run(s, steps), u) ==> BanQueued(s, u))
    decreases |steps|
  {
    if steps != [] {
      hide Next, HasBanRow, BanQueued;
      assert steps[0] in steps && forall st | st in steps[1..] :: st in steps;
      BanRowsComeFromTempBans(s, steps[0], u);
      NoBanRowComesBack(Next(s, steps[0]), steps[1..], u);
    }
  }

  /** Without a row of theirs, a user banned for good stays so unless the sweeper holds one. */
  lemma BanHoldsWithoutRows(s: State, u: User)
    requires !HasBanRow(s.timed, u)
    ensures HoldsUntil(Next(s, DoBan(u, true)), u, None) <==> !BanQueued(s, u)
  {
    var t := Next(s, DoBan(u, true));
    BanIsPermanent(s, u);
    hide Next;
    BanHoldsIff(t, u, None);
    hide HoldsUntil, Doomed;
  }

  /** After an unban, and whatever follows it short of a new temp-ban of that user, a ban
      holds for good if and only if the sweeper holds no ban of theirs from before. Then it
      holds in particular when the sweeper held none at the unban. */
  lemma BanAfterUnbanHoldsIff(s: State, u: User, steps: seq<Step>)
    requires !Renews(steps, u)
    ensures var t := Run(Next(s, DoUntimed(LiftBan, u, true)), steps);
            && (HoldsUntil(Next(t, DoBan(u, true)), u, None) <==> !BanQueued(t, u))
            && (!BanQueued(s, u) ==> HoldsUntil(Next(t, DoBan(u, true)), u, None))
  {
    var undone := Next(s, DoUntimed(LiftBan, u, true));
    UntimedClears(s, LiftBan, u);
    assert !HasBanRow(undone.timed, u) && undone.queue == s.queue;
    hide Next, HasBanRow, HoldsUntil;
    NoBanRowComesBack(undone, steps, u);
    BanHoldsWithoutRows(Run(undone, steps), u);
  }
}
