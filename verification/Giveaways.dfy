/** Giveaways: the draw without replacement, and the life of a giveaway. */
module Giveaways {
  import opened Base

  type User = nat
  type Id = nat

  predicate Distinct<T(==)>(s: seq<T>) {
    s == [] || (s[0] !in s[1..] && Distinct(s[1..]))
  }

  // ---- the draw -----------------------------------------------------------

  /** Remove an element, moving the last one into its place. */
  function SwapRemove(pool: seq<User>, i: nat): seq<User>
    requires i < |pool|
  {
    pool[i := pool[|pool| - 1]][..|pool| - 1]
  }

  /** The i-th choice is an index into what is left of `n` entries. */
  predicate Valid(choices: seq<nat>, n: nat) {
    choices == [] || (choices[0] < n && Valid(choices[1..], n - 1))
  }

  /** The winners in order of drawing, and the rest of the pool. */
  function Draw(pool: seq<User>, choices: seq<nat>): (r: (seq<User>, seq<User>))
    requires Valid(choices, |pool|)
    ensures |r.0| == |choices| && |r.0| + |r.1| == |pool|
    decreases |choices|
  {
    if choices == [] then ([], pool)
    else
      var (winners, rest) := Draw(SwapRemove(pool, choices[0]), choices[1..]);
      ([pool[choices[0]]] + winners, rest)
  }

  method DrawLoop(entries: seq<User>, choices: seq<nat>) returns (winners: seq<User>, pool: seq<User>)
    requires Valid(choices, |entries|)
    ensures (winners, pool) == Draw(entries, choices)
  {
    winners, pool := [], entries;
    assert choices[0..] == choices && winners + Draw(pool, choices).0 == Draw(pool, choices).0;
    for k := 0 to |choices|
      invariant Valid(choices[k..], |pool|)
      invariant Draw(entries, choices) == (winners + Draw(pool, choices[k..]).0, Draw(pool, choices[k..]).1)
    {
      var i := choices[k];
      assert choices[k..][1..] == choices[k + 1..];
      Assoc(winners, [pool[i]], Draw(SwapRemove(pool, i), choices[k + 1..]).0);
      winners := winners + [pool[i]];
      pool := SwapRemove(pool, i);
    }
    assert winners + [] == winners;
  }

  lemma LastApart(s: seq<User>)
    requires s != []
    ensures multiset(s) == multiset(s[..|s| - 1]) + multiset{s[|s| - 1]}
  {
    assert s[..|s| - 1] + [s[|s| - 1]] == s;
  }

  lemma Replaced(s: seq<User>, i: nat, x: User)
    requires i < |s|
    ensures multiset(s[i := x]) == multiset(s) - multiset{s[i]} + multiset{x}
    ensures s[i] in multiset(s)
  {
  }

  lemma SwapRemoveConserves(pool: seq<User>, i: nat)
    requires i < |pool|
    ensures multiset(SwapRemove(pool, i)) + multiset{pool[i]} == multiset(pool)
  {
    var last := pool[|pool| - 1];
    LastApart(pool[i := last]);
    Replaced(pool, i, last);
    Cancel(multiset(SwapRemove(pool, i)), multiset(pool), pool[i], last);
  }

  lemma Cancel(a: multiset<User>, b: multiset<User>, x: User, y: User)
    requires a + multiset{y} == b - multiset{x} + multiset{y} && x in b
    ensures a + multiset{x} == b
  {
    forall z ensures (a + multiset{x})[z] == b[z] {
      assert (a + multiset{y})[z] == (b - multiset{x} + multiset{y})[z];
    }
  }

  /** Winners and remaining pool are a rearrangement of the entries. */
  lemma {:induction false} DrawConserves(pool: seq<User>, choices: seq<nat>)
    requires Valid(choices, |pool|)
    ensures var (winners, rest) := Draw(pool, choices);
            multiset(winners) + multiset(rest) == multiset(pool)
    decreases |choices|
  {
    if choices != [] {
      SwapRemoveConserves(pool, choices[0]);
      DrawConserves(SwapRemove(pool, choices[0]), choices[1..]);
    }
  }

  lemma {:induction false} DistinctIff(s: seq<User>)
    ensures Distinct(s) <==> forall x: User :: multiset(s)[x] <= 1
  {
    if s != [] {
      var rest := multiset(s[1..]);
      HeadAndTail(s);
      DistinctIff(s[1..]);
      assert multiset(s) == multiset{s[0]} + rest;
      assert s[0] in s[1..] <==> rest[s[0]] > 0;
      assert multiset(s)[s[0]] == 1 + rest[s[0]];
      assert forall x: User | x != s[0] :: multiset(s)[x] == rest[x];
    }
  }

  lemma SwapRemoveOf(pool: seq<User>, i: nat)
    requires Distinct(pool) && i < |pool|
    ensures Distinct(SwapRemove(pool, i))
    ensures forall x: User :: x in SwapRemove(pool, i) <==> x in pool && x != pool[i]
  {
    SwapRemoveConserves(pool, i);
    DistinctIff(pool);
    var less := SwapRemove(pool, i);
    var all, left: multiset<User> := multiset(pool), multiset(less);
    assert pool[i] in all;
    assert left == all - multiset{pool[i]};
    assert forall x: User :: left[x] <= all[x];
    DistinctIff(less);
    forall x: User ensures x in less <==> x in pool && x != pool[i] {
      assert x in less <==> x in left;
      assert x in pool <==> x in all;
    }
  }

  lemma {:induction false} DistinctAt(s: seq<User>, i: nat, j: nat)
    requires Distinct(s) && i < j < |s|
    ensures s[i] != s[j]
  {
    assert s[j] == s[1..][j - 1];
    if i > 0 {
      DistinctAt(s[1..], i - 1, j - 1);
    }
  }

  /** An ordered selection of entrants, nobody twice. */
  predicate Selection(selected: seq<User>, pool: seq<User>) {
    Distinct(selected) && forall x | x in selected :: x in pool
  }

  function IndexOf(pool: seq<User>, x: User): (i: nat)
    requires x in pool
    ensures i < |pool| && pool[i] == x
  {
    if pool[0] == x then 0 else 1 + IndexOf(pool[1..], x)
  }

  /** The choices that draw a given selection. */
  function ChoicesFor(pool: seq<User>, selected: seq<User>): seq<nat>
    requires Distinct(pool) && Selection(selected, pool)
    decreases |selected|
  {
    if selected == [] then []
    else
      var i := IndexOf(pool, selected[0]);
      SwapRemoveOf(pool, i);
      [i] + ChoicesFor(SwapRemove(pool, i), selected[1..])
  }

  /** Any choices draw a selection of distinct entrants, and only they draw it. */
  lemma {:induction false} DrawIsSelection(pool: seq<User>, choices: seq<nat>)
    requires Distinct(pool) && Valid(choices, |pool|)
    ensures var winners := Draw(pool, choices).0;
            Selection(winners, pool) && ChoicesFor(pool, winners) == choices
    decreases |choices|
  {
    if choices != [] {
      var less := SwapRemove(pool, choices[0]);
      SwapRemoveOf(pool, choices[0]);
      DrawIsSelection(less, choices[1..]);
      var winners, rest := Draw(pool, choices).0, Draw(less, choices[1..]).0;
      assert winners[0] == pool[choices[0]] && winners[1..] == rest;
      var i, j := choices[0], IndexOf(pool, winners[0]);
      if i != j {
        DistinctAt(pool, Min(i, j), i + j - Min(i, j));
      }
    }
  }

  /** Every selection is drawn by some choices. */
  lemma {:induction false} SelectionIsDrawn(pool: seq<User>, selected: seq<User>)
    requires Distinct(pool) && Selection(selected, pool)
    ensures var choices := ChoicesFor(pool, selected);
            Valid(choices, |pool|) && Draw(pool, choices).0 == selected
    decreases |selected|
  {
    if selected != [] {
      var i := IndexOf(pool, selected[0]);
      SwapRemoveOf(pool, i);
      var less, rest := SwapRemove(pool, i), selected[1..];
      hide SwapRemove, IndexOf, Draw, Valid;
      SelectionIsDrawn(less, rest);
      DrawHead(pool, i, ChoicesFor(less, rest));
      HeadAndTail(selected);
    } else {
      assert ChoicesFor(pool, selected) == [];
    }
  }

  lemma DrawHead(pool: seq<User>, i: nat, choices: seq<nat>)
    requires i < |pool| && Valid(choices, |pool| - 1)
    ensures Valid([i] + choices, |pool|)
    ensures Draw(pool, [i] + choices).0 == [pool[i]] + Draw(SwapRemove(pool, i), choices).0
  {
    assert ([i] + choices)[1..] == choices;
  }

  /** The draw is fair: choices and ordered selections correspond one to one. */
  lemma DrawIsBijective(pool: seq<User>, selected: seq<User>, choices: seq<nat>)
    requires Distinct(pool) && Valid(choices, |pool|) && Selection(selected, pool)
    ensures Draw(pool, choices).0 == selected <==> choices == ChoicesFor(pool, selected)
  {
    DrawIsSelection(pool, choices);
    SelectionIsDrawn(pool, selected);
  }

  // ---- the life of a giveaway ---------------------------------------------

  datatype Giveaway = Giveaway(endsAt: int, ended: bool, winners: nat)

  datatype Announcement = Announcement(id: Id, reroll: bool, winners: seq<User>, pool: seq<User>)

  /** `queue` is what the sweeper's scan returned and has not handled; `pending` a
      result drawn and stored as ended but not announced. `inflight` holds the button
      presses that found the giveaway open and have not tried to insert yet, `leaving` those
      whose insert found the row there and that have not deleted it yet; `presses` counts
      those that are through, `misses` those whose delete found nothing. */
  datatype State = State(now: int, rows: map<Id, Giveaway>, entries: set<(Id, User)>,
                         queue: seq<Id>, pending: Option<Announcement>,
                         announced: seq<Announcement>, presses: map<(Id, User), nat>,
                         inflight: multiset<(Id, User)>, leaving: multiset<(Id, User)>,
                         misses: map<(Id, User), nat>)

  datatype Step =
    | Tick(seconds: nat)
    | Start(id: Id, endsAt: int, winners: nat)
    | PressRead(id: Id, user: User)
    | PressWrite(id: Id, user: User, dbOk: bool)
    | PressLeave(id: Id, user: User, dbOk: bool)
    | End(id: Id, dbOk: bool)
    | Scan(order: seq<Id>)
    | Finish(pool: seq<User>, choices: seq<nat>, readOk: bool, writeOk: bool)
    | Announce
    | Reroll(id: Id, pool: seq<User>, choices: seq<nat>, readOk: bool)
    | Crash

  function Pressed(presses: map<(Id, User), nat>, id: Id, user: User): nat {
    if (id, user) in presses then presses[(id, user)] else 0
  }

  /** `pool` lists the entrants of `id`, each once, in whatever order. */
  ghost predicate PoolOf(s: State, id: Id, pool: seq<User>) {
    Distinct(pool) && forall u: User :: u in pool <==> (id, u) in s.entries
  }

  function Min(a: nat, b: nat): nat {
    if a < b then a else b
  }

  /** The draw made for `id`; a failed read of the entries leaves the pool empty. */
  ghost predicate Drawn(s: State, id: Id, want: nat, pool: seq<User>, choices: seq<nat>, readOk: bool) {
    && (if readOk then PoolOf(s, id, pool) else pool == [])
    && |choices| == Min(want, |pool|) && Valid(choices, |pool|)
  }

  ghost predicate ScanOf(s: State, order: seq<Id>) {
    && Distinct(order)
    && forall id: Id :: id in order <==> id in s.rows && !s.rows[id].ended && s.rows[id].endsAt <= s.now
  }

  function Entered(s: State, id: Id, u: User): State {
    s.(entries := s.entries + {(id, u)}, presses := s.presses[(id, u) := Pressed(s.presses, id, u) + 1])
  }

  function Left(s: State, id: Id, u: User): State {
    s.(entries := s.entries - {(id, u)}, presses := s.presses[(id, u) := Pressed(s.presses, id, u) + 1],
       misses := if (id, u) in s.entries then s.misses else s.misses[(id, u) := Pressed(s.misses, id, u) + 1])
  }

  /** A press inserts its entry, or finds it there. */
  function Wrote(s: State, id: Id, u: User, dbOk: bool): (t: State)
    ensures t.rows == s.rows
  {
    if (id, u) !in s.inflight then s
    else
      var s1 := s.(inflight := s.inflight - multiset{(id, u)});
      if !dbOk then s1
      else if (id, u) in s.entries then s1.(leaving := s.leaving + multiset{(id, u)})
      else Entered(s1, id, u)
  }

  /** A press that found it there deletes it. */
  function Deleted(s: State, id: Id, u: User, dbOk: bool): (t: State)
    ensures t.rows == s.rows
  {
    if (id, u) !in s.leaving then s
    else
      var s1 := s.(leaving := s.leaving - multiset{(id, u)});
      if dbOk then Left(s1, id, u) else s1
  }

  ghost function Next(s: State, step: Step): State {
    match step
    case Tick(secs) => s.(now := s.now + secs)
    case Start(id, endsAt, winners) =>
      if id in s.rows || endsAt <= s.now then s
      else s.(rows := s.rows[id := Giveaway(endsAt, false, winners)])
    case PressRead(id, u) =>
      if id !in s.rows || s.rows[id].ended then s else s.(inflight := s.inflight + multiset{(id, u)})
    case PressWrite(id, u, dbOk) => Wrote(s, id, u, dbOk)
    case PressLeave(id, u, dbOk) => Deleted(s, id, u, dbOk)
    case End(id, dbOk) =>
      if id !in s.rows || s.rows[id].ended || !dbOk then s
      else s.(rows := s.rows[id := s.rows[id].(endsAt := s.now - 1)])
    case Scan(order) =>
      if s.queue != [] || s.pending.Some? || !ScanOf(s, order) then s else s.(queue := order)
    case Finish(pool, choices, readOk, writeOk) =>
      if s.queue == [] || s.pending.Some? || s.queue[0] !in s.rows then s
      else
        var id := s.queue[0];
        if !Drawn(s, id, s.rows[id].winners, pool, choices, readOk) then s
        else if !writeOk then s.(queue := s.queue[1..])
        else s.(queue := s.queue[1..], rows := s.rows[id := s.rows[id].(ended := true)],
                pending := Some(Announcement(id, false, Draw(pool, choices).0, pool)))
    case Announce =>
      if s.pending.None? then s else s.(announced := s.announced + [s.pending.value], pending := None)
    case Reroll(id, pool, choices, readOk) =>
      if id !in s.rows || !s.rows[id].ended || !Drawn(s, id, 1, pool, choices, readOk) then s
      else s.(announced := s.announced + [Announcement(id, true, Draw(pool, choices).0, pool)])
    case Crash => s.(queue := [], pending := None, inflight := multiset{}, leaving := multiset{})
  }

  ghost function Run(s: State, steps: seq<Step>): State
    decreases steps
  {
    if steps == [] then s else Run(Next(s, steps[0]), steps[1..])
  }

  /** How often the original (non-reroll) result of `id` was announced. */
  function Results(log: seq<Announcement>, id: Id): nat {
    if log == [] then 0
    else Results(log[..|log| - 1], id) + if log[|log| - 1].id == id && !log[|log| - 1].reroll then 1 else 0
  }

  ghost predicate Odd(n: nat) {
    n % 2 == 1
  }

  ghost predicate WinnersOfPool(a: Announcement) {
    Distinct(a.winners) && forall w | w in a.winners :: w in a.pool
  }

  /** A user is entered exactly if an odd number of their presses did something. */
  ghost predicate EntriesCount(s: State) {
    forall id: Id, u: User ::
      (id, u) in s.entries <==> Odd(Pressed(s.presses, id, u) + Pressed(s.misses, id, u))
  }

  /** What was announced, or is about to be, and what the sweeper still has to finish. */
  ghost predicate Announcing(s: State) {
    && (forall a | a in s.announced :: a.id in s.rows && s.rows[a.id].ended && WinnersOfPool(a))
    && (s.pending.Some? ==>
          var p := s.pending.value;
          && p.id in s.rows && s.rows[p.id].ended && !p.reroll && WinnersOfPool(p) && Results(s.announced, p.id) == 0)
    && Distinct(s.queue)
    && (forall id | id in s.queue :: id in s.rows && !s.rows[id].ended)
    && (forall id: Id :: Results(s.announced, id) <= 1)
    && (forall id: Id | id !in s.rows || !s.rows[id].ended :: Results(s.announced, id) == 0)
  }

  ghost predicate Inv(s: State) {
    Announcing(s) && EntriesCount(s)
  }

  /** Presses are no business of the announcements, and the other way round. */
  lemma PressesApart(s: State, s': State)
    requires Inv(s) && s'.rows == s.rows && s'.announced == s.announced && s'.pending == s.pending && s'.queue == s.queue
    ensures Announcing(s')
  {
    hide Results, WinnersOfPool, Distinct;
  }

  lemma AnnouncingApart(s: State, s': State)
    requires Inv(s) && s'.entries == s.entries && s'.presses == s.presses && s'.misses == s.misses
    ensures EntriesCount(s')
  {
    hide Pressed;
  }

  lemma ResultsAppend(log: seq<Announcement>, a: Announcement)
    ensures forall id: Id :: Results(log + [a], id) == Results(log, id) + if a.id == id && !a.reroll then 1 else 0
  {
    assert (log + [a])[..|log|] == log;
  }

  lemma DrawnWins(s: State, id: Id, want: nat, pool: seq<User>, choices: seq<nat>, readOk: bool, reroll: bool)
    requires Drawn(s, id, want, pool, choices, readOk)
    ensures WinnersOfPool(Announcement(id, reroll, Draw(pool, choices).0, pool))
  {
    DrawIsSelection(pool, choices);
  }

  lemma PressedAfter(m: map<(Id, User), nat>, id: Id, u: User)
    ensures forall i: Id, v: User ::
              Pressed(m[(id, u) := Pressed(m, id, u) + 1], i, v) == Pressed(m, i, v) + if (i, v) == (id, u) then 1 else 0
  {
  }

  lemma EnteredKeepsInv(s: State, id: Id, u: User)
    requires Inv(s) && (id, u) !in s.entries
    ensures Inv(Entered(s, id, u))
  {
    PressesApart(s, Entered(s, id, u));
    PressedAfter(s.presses, id, u);
    hide Announcing, Pressed;
  }

  lemma LeftKeepsInv(s: State, id: Id, u: User)
    requires Inv(s)
    ensures Inv(Left(s, id, u))
  {
    PressesApart(s, Left(s, id, u));
    PressedAfter(s.presses, id, u);
    PressedAfter(s.misses, id, u);
    hide Announcing, Pressed;
  }

  lemma FinishKeepsInv(s: State, pool: seq<User>, choices: seq<nat>, readOk: bool, writeOk: bool)
    requires Inv(s)
    ensures Inv(Next(s, Finish(pool, choices, readOk, writeOk)))
  {
    var s' := Next(s, Finish(pool, choices, readOk, writeOk));
    AnnouncingApart(s, s');
    hide EntriesCount;
    if s.queue != [] && s.pending.None? && s.queue[0] in s.rows {
      var id := s.queue[0];
      assert id in s.queue && forall x | x in s.queue[1..] :: x in s.queue;
      if Drawn(s, id, s.rows[id].winners, pool, choices, readOk) {
        DrawnWins(s, id, s.rows[id].winners, pool, choices, readOk, false);
        hide Drawn, Draw, Results, WinnersOfPool;
      }
    }
  }

  lemma AnnouncedKeepsInv(s: State, a: Announcement)
    requires Inv(s) && a.id in s.rows && s.rows[a.id].ended && WinnersOfPool(a)
    requires a.reroll || s.pending == Some(a)
    ensures Inv(s.(announced := s.announced + [a], pending := if a.reroll then s.pending else None))
  {
    ResultsAppend(s.announced, a);
    AnnouncingApart(s, s.(announced := s.announced + [a], pending := if a.reroll then s.pending else None));
    hide EntriesCount, Results, WinnersOfPool, Distinct;
  }

  lemma RerollKeepsInv(s: State, id: Id, pool: seq<User>, choices: seq<nat>, readOk: bool)
    requires Inv(s)
    ensures Inv(Next(s, Reroll(id, pool, choices, readOk)))
  {
    if id in s.rows && s.rows[id].ended && Drawn(s, id, 1, pool, choices, readOk) {
      var a := Announcement(id, true, Draw(pool, choices).0, pool);
      DrawnWins(s, id, 1, pool, choices, readOk, true);
      AnnouncedKeepsInv(s, a);
      hide Inv, Drawn, Draw;
    }
  }

  lemma StepKeepsInv(s: State, step: Step)
    requires Inv(s)
    ensures Inv(Next(s, step))
  {
    hide *;
    match step
    case Tick(_) => QuietStep(s, step); QuietKeepsInv(s, Next(s, step));
    case Start(id, endsAt, winners) => StartKeepsInv(s, id, endsAt, winners);
    case PressRead(_, _) => QuietStep(s, step); QuietKeepsInv(s, Next(s, step));
    case PressWrite(id, u, dbOk) => PressKeepsInv(s, id, u, dbOk);
    case PressLeave(id, u, dbOk) => LeaveKeepsInv(s, id, u, dbOk);
    case End(id, dbOk) => EndKeepsInv(s, id, dbOk);
    case Scan(order) => ScanKeepsInv(s, order);
    case Finish(pool, choices, readOk, writeOk) => FinishKeepsInv(s, pool, choices, readOk, writeOk);
    case Announce => AnnounceKeepsInv(s);
    case Reroll(id, pool, choices, readOk) => RerollKeepsInv(s, id, pool, choices, readOk);
    case Crash => CrashKeepsInv(s);
  }

  lemma QuietStep(s: State, step: Step)
    requires step.Tick? || step.PressRead?
    ensures var s' := Next(s, step); s' == s.(now := s'.now, inflight := s'.inflight)
  {
    hide Draw, Drawn, ScanOf;
  }

  lemma QuietKeepsInv(s: State, s': State)
    requires Inv(s) && s' == s.(now := s'.now, inflight := s'.inflight)
    ensures Inv(s')
  {
    AnnouncingApart(s, s');
    PressesApart(s, s');
    hide Announcing, EntriesCount;
  }

  lemma CrashKeepsInv(s: State)
    requires Inv(s)
    ensures Inv(Next(s, Crash))
  {
    AnnouncingApart(s, Next(s, Crash));
    hide Results, WinnersOfPool, EntriesCount;
  }

  lemma StartKeepsInv(s: State, id: Id, endsAt: int, winners: nat)
    requires Inv(s)
    ensures Inv(Next(s, Start(id, endsAt, winners)))
  {
    var s' := Next(s, Start(id, endsAt, winners));
    AnnouncingApart(s, s');
    RowKeepsInv(s, s', id);
    hide Announcing, EntriesCount;
  }

  lemma EndKeepsInv(s: State, id: Id, dbOk: bool)
    requires Inv(s)
    ensures Inv(Next(s, End(id, dbOk)))
  {
    var s' := Next(s, End(id, dbOk));
    AnnouncingApart(s, s');
    RowKeepsInv(s, s', id);
    hide Announcing, EntriesCount;
  }

  /** A giveaway started, or moved to end now: it is not ended yet either way. */
  lemma RowKeepsInv(s: State, s': State, id: Id)
    requires Inv(s) && s' == s.(rows := s'.rows)
    requires s' == s || (id in s'.rows && s'.rows == s.rows[id := s'.rows[id]] && !s'.rows[id].ended
                         && (id in s.rows ==> !s.rows[id].ended))
    ensures Announcing(s')
  {
    hide Results, WinnersOfPool, EntriesCount, Distinct;
  }

  lemma PressKeepsInv(s: State, id: Id, u: User, dbOk: bool)
    requires Inv(s)
    ensures Inv(Next(s, PressWrite(id, u, dbOk)))
  {
    var s1 := s.(inflight := s.inflight - multiset{(id, u)});
    var s2 := s1.(leaving := s.leaving + multiset{(id, u)});
    assert Inv(s1) && Inv(s2) by { AnnouncingApart(s, s1); AnnouncingApart(s, s2); PressesApart(s, s1); PressesApart(s, s2); }
    if (id, u) !in s.entries {
      EnteredKeepsInv(s1, id, u);
    }
    hide Inv, Entered;
  }

  lemma LeaveKeepsInv(s: State, id: Id, u: User, dbOk: bool)
    requires Inv(s)
    ensures Inv(Next(s, PressLeave(id, u, dbOk)))
  {
    var s1 := s.(leaving := s.leaving - multiset{(id, u)});
    assert Inv(s1) by { AnnouncingApart(s, s1); PressesApart(s, s1); }
    LeftKeepsInv(s1, id, u);
    hide Inv, Left;
  }

  lemma ScanKeepsInv(s: State, order: seq<Id>)
    requires Inv(s)
    ensures Inv(Next(s, Scan(order)))
  {
    AnnouncingApart(s, Next(s, Scan(order)));
    hide Results, Pressed, Distinct, WinnersOfPool, EntriesCount;
  }

  lemma AnnounceKeepsInv(s: State)
    requires Inv(s)
    ensures Inv(Next(s, Announce))
  {
    if s.pending.Some? {
      hide Results, Pressed, Distinct, WinnersOfPool;
      AnnouncedKeepsInv(s, s.pending.value);
      hide Inv;
    }
  }

  lemma {:induction false} RunKeepsInv(s: State, steps: seq<Step>)
    requires Inv(s)
    ensures Inv(Run(s, steps))
    decreases steps
  {
    if steps != [] {
      hide Inv, Next;
      StepKeepsInv(s, steps[0]);
      RunKeepsInv(Next(s, steps[0]), steps[1..]);
    }
  }

  lemma EndedOnce(s: State, step: Step, id: Id)
    requires id in s.rows && s.rows[id].ended
    ensures id in Next(s, step).rows && Next(s, step).rows[id].ended
  {
    if step.PressRead? || step.PressWrite? || step.PressLeave? {
      OtherRows(s, step);
      hide Next;
    } else {
      hide Draw, Drawn, ScanOf, Pressed, Entered, Left;
    }
  }

  /** `ended` never reverts, whatever happens. */
  lemma {:induction false} EndedForGood(s: State, steps: seq<Step>, id: Id)
    requires id in s.rows && s.rows[id].ended
    ensures id in Run(s, steps).rows && Run(s, steps).rows[id].ended
    decreases steps
  {
    if steps != [] {
      hide Next;
      EndedOnce(s, steps[0], id);
      EndedForGood(Next(s, steps[0]), steps[1..], id);
    }
  }

  function Empty(now: int): State {
    State(now, map[], {}, [], None, [], map[], multiset{}, multiset{}, map[])
  }

  /** Along every run, with writes failing, restarts at any point and presses in
      between: the original result is announced at most once; whatever is announced,
      a reroll included, belongs to a giveaway already stored as ended and names
      distinct entrants of the pool it was drawn from. And being entered means an odd number
      of presses that found it open exactly if an even number of them missed. */
  lemma Lifecycle(now: int, steps: seq<Step>, id: Id, u: User)
    ensures var s := Run(Empty(now), steps);
            && Results(s.announced, id) <= 1
            && (forall a | a in s.announced ::
                  a.id in s.rows && s.rows[a.id].ended && Distinct(a.winners) && forall w | w in a.winners :: w in a.pool)
            && (((id, u) in s.entries <==> Odd(Pressed(s.presses, id, u))) <==> !Odd(Pressed(s.misses, id, u)))
  {
    hide *;
    EmptyInv(now);
    RunKeepsInv(Empty(now), steps);
    InvSays(Run(Empty(now), steps), id, u);
  }

  lemma EmptyInv(now: int)
    ensures Inv(Empty(now))
  {
  }

  lemma InvSays(s: State, id: Id, u: User)
    requires Inv(s)
    ensures Results(s.announced, id) <= 1
    ensures forall a | a in s.announced ::
              a.id in s.rows && s.rows[a.id].ended && Distinct(a.winners) && forall w | w in a.winners :: w in a.pool
    ensures ((id, u) in s.entries <==> Odd(Pressed(s.presses, id, u))) <==> !Odd(Pressed(s.misses, id, u))
  {
    hide Results, Distinct, Pressed;
    assert (id, u) in s.entries <==> Odd(Pressed(s.presses, id, u) + Pressed(s.misses, id, u));
  }

  // ---- presses of one user ------------------------------------------------

  /** At most one press of `u` under way, and none about to delete a row that is not there. */
  ghost predicate Apart(s: State, id: Id, u: User) {
    && s.inflight[(id, u)] + s.leaving[(id, u)] <= 1
    && ((id, u) in s.leaving ==> (id, u) in s.entries)
  }

  /** `u` presses only when no other press of theirs is under way. */
  ghost predicate OneByOne(s: State, steps: seq<Step>, id: Id, u: User)
    decreases steps
  {
    steps != [] ==>
      && (steps[0] == PressRead(id, u) ==> (id, u) !in s.inflight && (id, u) !in s.leaving)
      && OneByOne(Next(s, steps[0]), steps[1..], id, u)
  }

  lemma ApartStep(s: State, step: Step, id: Id, u: User)
    requires Apart(s, id, u)
    requires step == PressRead(id, u) ==> (id, u) !in s.inflight && (id, u) !in s.leaving
    ensures Apart(Next(s, step), id, u) && Pressed(Next(s, step).misses, id, u) == Pressed(s.misses, id, u)
  {
    if step == PressWrite(id, u, true) || step == PressWrite(id, u, false)
       || step == PressLeave(id, u, true) || step == PressLeave(id, u, false) || step == PressRead(id, u) {
      OwnPressStep(s, step, id, u);
    } else {
      OtherPressStep(s, step, id, u);
    }
  }

  lemma OwnPressStep(s: State, step: Step, id: Id, u: User)
    requires Apart(s, id, u) && step in {PressRead(id, u), PressWrite(id, u, true), PressWrite(id, u, false),
                                         PressLeave(id, u, true), PressLeave(id, u, false)}
    requires step == PressRead(id, u) ==> (id, u) !in s.inflight && (id, u) !in s.leaving
    ensures Apart(Next(s, step), id, u) && Pressed(Next(s, step).misses, id, u) == Pressed(s.misses, id, u)
  {
    hide Pressed;
  }

  /** A step that is no press of `u` on `id` takes nothing from their presses under way. */
  lemma OtherPressStep(s: State, step: Step, id: Id, u: User)
    requires (step.PressRead? || step.PressWrite? || step.PressLeave?) ==> (step.id, step.user) != (id, u)
    ensures var s' := Next(s, step);
            && s'.inflight[(id, u)] <= s.inflight[(id, u)] && s'.leaving[(id, u)] <= s.leaving[(id, u)]
            && ((id, u) in s'.entries <==> (id, u) in s.entries)
            && Pressed(s'.misses, id, u) == Pressed(s.misses, id, u)
  {
    if step.PressRead? || step.PressWrite? || step.PressLeave? {
      OthersPress(s, step, id, u);
    } else {
      hide Draw, Drawn, ScanOf, Valid, Pressed;
    }
  }

  lemma OthersPress(s: State, step: Step, id: Id, u: User)
    requires (step.PressRead? || step.PressWrite? || step.PressLeave?) && (step.id, step.user) != (id, u)
    ensures var s' := Next(s, step);
            && s'.inflight[(id, u)] == s.inflight[(id, u)] && s'.leaving[(id, u)] == s.leaving[(id, u)]
            && ((id, u) in s'.entries <==> (id, u) in s.entries)
            && Pressed(s'.misses, id, u) == Pressed(s.misses, id, u)
  {
    var k := (step.id, step.user);
    TakenApart(s.inflight, k, (id, u));
    TakenApart(s.leaving, k, (id, u));
    PressedAfter(s.misses, step.id, step.user);
    hide Pressed;
  }

  lemma TakenApart(m: multiset<(Id, User)>, k: (Id, User), x: (Id, User))
    requires k != x
    ensures (m - multiset{k})[x] == m[x] && (m + multiset{k})[x] == m[x]
  {
  }

  /** Presses one after the other never miss. */
  lemma {:induction false} NoMiss(s: State, steps: seq<Step>, id: Id, u: User)
    requires Apart(s, id, u) && OneByOne(s, steps, id, u)
    ensures Pressed(Run(s, steps).misses, id, u) == Pressed(s.misses, id, u)
    decreases steps
  {
    if steps != [] {
      hide Next, Apart;
      ApartStep(s, steps[0], id, u);
      NoMiss(Next(s, steps[0]), steps[1..], id, u);
    }
  }

  /** So a user who waits for the answer before pressing again is entered exactly if an odd
      number of presses that found the giveaway open went through. */
  lemma EnteredIffOdd(now: int, steps: seq<Step>, id: Id, u: User)
    requires OneByOne(Empty(now), steps, id, u)
    ensures var s := Run(Empty(now), steps);
            (id, u) in s.entries <==> Odd(Pressed(s.presses, id, u))
  {
    NoMiss(Empty(now), steps, id, u);
    Lifecycle(now, steps, id, u);
    hide Run;
  }

  /** Entered, with two presses whose inserts were both refused. */
  function TwoLeaving(): State {
    Empty(0).(rows := map[1 := Giveaway(10, false, 1)], entries := {(1, 7)}, presses := map[(1, 7) := 1],
              leaving := multiset{(1, 7), (1, 7)})
  }

  /** The input: an entrant presses twice at once. Both inserts are refused, both delete:
      three presses in all, and out. */
  lemma OverlapMisses()
    ensures var entered := Next(Next(Next(Empty(0), Start(1, 10, 1)), PressRead(1, 7)), PressWrite(1, 7, true));
            Next(Next(Next(Next(entered, PressRead(1, 7)), PressRead(1, 7)), PressWrite(1, 7, true)), PressWrite(1, 7, true))
            == TwoLeaving()
    ensures var s := Next(Next(TwoLeaving(), PressLeave(1, 7, true)), PressLeave(1, 7, true));
            (1, 7) !in s.entries && Pressed(s.presses, 1, 7) == 3
  {
    FirstPress();
    TwoPresses(TwoLeaving().(leaving := multiset{}));
    BothLeave();
    hide Next;
  }

  lemma FirstPress()
    ensures Next(Next(Next(Empty(0), Start(1, 10, 1)), PressRead(1, 7)), PressWrite(1, 7, true))
            == TwoLeaving().(leaving := multiset{})
  {
    var started := Empty(0).(rows := map[1 := Giveaway(10, false, 1)]);
    assert Next(Empty(0), Start(1, 10, 1)) == started;
    var read := started.(inflight := multiset{(1, 7)});
    assert Next(started, PressRead(1, 7)) == read;
  }

  lemma BothLeave()
    ensures var s := Next(Next(TwoLeaving(), PressLeave(1, 7, true)), PressLeave(1, 7, true));
            (1, 7) !in s.entries && Pressed(s.presses, 1, 7) == 3
  {
    var left := Next(TwoLeaving(), PressLeave(1, 7, true));
    assert left.leaving == multiset{(1, 7)} && left.entries == {} && left.presses == map[(1, 7) := 2];
  }

  lemma TwoPresses(s: State)
    requires s == TwoLeaving().(leaving := multiset{})
    ensures Next(Next(Next(Next(s, PressRead(1, 7)), PressRead(1, 7)), PressWrite(1, 7, true)), PressWrite(1, 7, true))
            == TwoLeaving()
  {
    var a := s.(inflight := multiset{(1, 7)});
    assert Next(s, PressRead(1, 7)) == a;
    var b := s.(inflight := multiset{(1, 7), (1, 7)});
    assert Next(a, PressRead(1, 7)) == b;
    var c := s.(inflight := multiset{(1, 7)}, leaving := multiset{(1, 7)});
    assert Next(b, PressWrite(1, 7, true)) == c;
    assert Next(c, PressWrite(1, 7, true)) == TwoLeaving();
  }

  // ---- after the end ------------------------------------------------------

  /** Nothing under way can change whether `u` is in the pool. */
  ghost predicate Settled(s: State, id: Id, u: User) {
    (id, u) !in s.inflight && ((id, u) in s.leaving ==> (id, u) !in s.entries)
  }

  lemma EndedStep(s: State, step: Step, id: Id, u: User)
    requires id in s.rows && s.rows[id].ended && Settled(s, id, u)
    ensures var s' := Next(s, step);
            && id in s'.rows && s'.rows[id].ended && Settled(s', id, u)
            && ((id, u) in s'.entries <==> (id, u) in s.entries)
  {
    if step.PressRead? || step.PressWrite? || step.PressLeave? {
      EndedPress(s, step, id, u);
    } else {
      hide Draw, Drawn, ScanOf, Valid, Entered, Left;
    }
  }

  lemma EndedPress(s: State, step: Step, id: Id, u: User)
    requires step.PressRead? || step.PressWrite? || step.PressLeave?
    requires id in s.rows && s.rows[id].ended && Settled(s, id, u)
    ensures var s' := Next(s, step);
            s'.rows == s.rows && Settled(s', id, u) && ((id, u) in s'.entries <==> (id, u) in s.entries)
  {
    if (step.id, step.user) == (id, u) {
      hide Pressed;
    } else {
      OthersPress(s, step, id, u);
      OtherRows(s, step);
      hide Next, Pressed;
    }
  }

  lemma OtherRows(s: State, step: Step)
    requires step.PressRead? || step.PressWrite? || step.PressLeave?
    ensures Next(s, step).rows == s.rows
  {
    hide Wrote, Deleted, Draw, Drawn, ScanOf;
  }

  lemma {:induction false} PoolIsFrozen(s: State, steps: seq<Step>, id: Id, u: User)
    requires id in s.rows && s.rows[id].ended && Settled(s, id, u)
    ensures (id, u) in Run(s, steps).entries <==> (id, u) in s.entries
    decreases steps
  {
    if steps != [] {
      hide Next, Settled;
      EndedStep(s, steps[0], id, u);
      PoolIsFrozen(Next(s, steps[0]), steps[1..], id, u);
    }
  }

  /** Once a giveaway has ended, a user stays in or out of its pool for good, so that every
      reroll draws from the same entrants, if and only if no press of theirs that found it
      open has yet to insert or to delete their entry. */
  lemma PoolIsFrozenIff(s: State, id: Id, u: User)
    requires id in s.rows && s.rows[id].ended
    ensures (forall steps :: (id, u) in Run(s, steps).entries <==> (id, u) in s.entries) <==> Settled(s, id, u)
  {
    hide Run;
    if Settled(s, id, u) {
      forall steps ensures (id, u) in Run(s, steps).entries <==> (id, u) in s.entries {
        PoolIsFrozen(s, steps, id, u);
      }
    } else {
      var late := LatePressCounts(s, id, u);
    }
  }

  lemma LatePressCounts(s: State, id: Id, u: User) returns (steps: seq<Step>)
    requires !Settled(s, id, u)
    ensures (id, u) in Run(s, steps).entries <==> (id, u) !in s.entries
  {
    if (id, u) in s.inflight && (id, u) in s.entries {
      steps := [PressWrite(id, u, true), PressLeave(id, u, true)];
      RunTwo(s, PressWrite(id, u, true), PressLeave(id, u, true));
    } else if (id, u) in s.inflight {
      steps := [PressWrite(id, u, true)];
      RunOne(s, PressWrite(id, u, true));
    } else {
      steps := [PressLeave(id, u, true)];
      RunOne(s, PressLeave(id, u, true));
    }
    hide Run, Pressed;
  }

  lemma RunOne(s: State, a: Step)
    ensures Run(s, [a]) == Next(s, a)
  {
    hide Next;
    assert [a][1..] == [];
  }

  lemma RunTwo(s: State, a: Step, b: Step)
    ensures Run(s, [a, b]) == Next(Next(s, a), b)
  {
    hide Next;
    assert [a, b][1..] == [b];
    RunOne(Next(s, a), b);
  }

  /** What a step on one giveaway leaves alone: every other giveaway. */
  ghost predicate SameFor(s: State, s': State, id: Id) {
    && (id in s'.rows <==> id in s.rows) && (id in s.rows ==> s'.rows[id] == s.rows[id])
    && (forall u: User :: (id, u) in s'.entries <==> (id, u) in s.entries)
    && Results(s'.announced, id) == Results(s.announced, id)
  }

  lemma PressIsLocal(s: State, step: Step, id: Id)
    requires (step.PressRead? || step.PressWrite? || step.PressLeave?) && step.id != id
    ensures SameFor(s, Next(s, step), id)
  {
    hide Next, Pressed, Results;
    SilentStep(s, step);
    OtherRows(s, step);
    forall u: User ensures (id, u) in Next(s, step).entries <==> (id, u) in s.entries {
      OthersPress(s, step, id, u);
    }
  }

  lemma AnnouncedIsLocal(s: State, a: Announcement, pending: Option<Announcement>, id: Id)
    requires a.id != id
    ensures SameFor(s, s.(announced := s.announced + [a], pending := pending), id)
  {
    ResultsAppend(s.announced, a);
    hide Results;
  }

  lemma StepsAreLocal(s: State, step: Step, id: Id)
    requires step.Start? || step.PressRead? || step.PressWrite? || step.PressLeave? || step.End? || step.Reroll?
             ==> step.id != id
    requires step.Finish? && s.queue != [] ==> s.queue[0] != id
    requires step.Announce? && s.pending.Some? ==> s.pending.value.id != id
    ensures SameFor(s, Next(s, step), id)
  {
    if step.PressRead? || step.PressWrite? || step.PressLeave? {
      PressIsLocal(s, step, id);
    } else if step.Announce? {
      if s.pending.Some? { AnnouncedIsLocal(s, s.pending.value, None, id); }
      hide SameFor;
    } else if step.Reroll? {
      RerollIsLocal(s, step.id, step.pool, step.choices, step.readOk, id);
    } else {
      hide Results, Draw, Drawn, ScanOf;
    }
  }

  lemma RerollIsLocal(s: State, i: Id, pool: seq<User>, choices: seq<nat>, readOk: bool, id: Id)
    requires i != id
    ensures SameFor(s, Next(s, Reroll(i, pool, choices, readOk)), id)
  {
    hide Results;
    if i in s.rows && s.rows[i].ended && Drawn(s, i, 1, pool, choices, readOk) {
      AnnouncedIsLocal(s, Announcement(i, true, Draw(pool, choices).0, pool), s.pending, id);
    }
    hide Drawn, Draw;
  }

  // ---- who is announced ---------------------------------------------------

  /** All that were wanted, or everybody there was. */
  predicate AsMany(n: nat, want: nat, available: nat) {
    n <= want && n <= available && (n == want || n == available)
  }

  /** One winner for a reroll, else as many as the giveaway was started with. */
  ghost predicate Counted(a: Announcement, rows: map<Id, Giveaway>) {
    a.id in rows && AsMany(|a.winners|, if a.reroll then 1 else rows[a.id].winners, |a.pool|)
  }

  ghost predicate AllCounted(s: State) {
    && (forall a | a in s.announced :: Counted(a, s.rows))
    && (s.pending.Some? ==> Counted(s.pending.value, s.rows))
  }

  /** No step changes how many winners a giveaway has. */
  lemma WinnersStay(s: State, step: Step)
    ensures forall id | id in s.rows :: id in Next(s, step).rows && Next(s, step).rows[id].winners == s.rows[id].winners
  {
    if step.PressRead? || step.PressWrite? || step.PressLeave? {
      OtherRows(s, step);
      hide Next;
    } else {
      hide Draw, Drawn, ScanOf, Valid;
    }
  }

  lemma CountedStays(s: State, s': State)
    requires AllCounted(s)
    requires forall id | id in s.rows :: id in s'.rows && s'.rows[id].winners == s.rows[id].winners
    ensures AllCounted(s'.(announced := s.announced, pending := s.pending))
    ensures AllCounted(s'.(announced := s.announced, pending := None))
  {
    hide AsMany;
  }

  /** Steps that neither draw nor announce. */
  lemma SilentStep(s: State, step: Step)
    requires !step.Finish? && !step.Announce? && !step.Reroll?
    ensures var s' := Next(s, step);
            s'.announced == s.announced && (s'.pending == s.pending || s'.pending.None?)
  {
    if step.PressWrite? || step.PressLeave? {
      hide Pressed;
    } else {
      hide ScanOf;
    }
  }

  lemma FinishCounts(s: State, step: Step)
    requires AllCounted(s) && step.Finish?
    ensures AllCounted(Next(s, step))
  {
    WinnersStay(s, step);
    CountedStays(s, Next(s, step));
    hide Valid;
  }

  lemma AnnounceCounts(s: State)
    requires AllCounted(s)
    ensures AllCounted(Next(s, Announce))
  {
    hide Counted;
  }

  lemma RerollCounts(s: State, step: Step)
    requires AllCounted(s) && step.Reroll?
    ensures AllCounted(Next(s, step))
  {
    hide Valid;
  }

  lemma StepCounts(s: State, step: Step)
    requires AllCounted(s)
    ensures AllCounted(Next(s, step))
  {
    hide *;
    match step
    case Finish(_, _, _, _) => FinishCounts(s, step);
    case Announce => AnnounceCounts(s);
    case Reroll(_, _, _, _) => RerollCounts(s, step);
    case _ =>
      WinnersStay(s, step);
      SilentStep(s, step);
      CountedStays(s, Next(s, step));
  }

  lemma {:induction false} RunCounts(s: State, steps: seq<Step>)
    requires AllCounted(s)
    ensures AllCounted(Run(s, steps))
    decreases steps
  {
    if steps != [] {
      hide AllCounted, Next;
      StepCounts(s, steps[0]);
      RunCounts(Next(s, steps[0]), steps[1..]);
    }
  }

  /** Along every run each announcement names as many winners as are wanted, or the whole
      pool if it is smaller: one for a reroll, else the giveaway's own number. */
  lemma AnnouncedInFull(now: int, steps: seq<Step>, a: Announcement)
    requires a in Run(Empty(now), steps).announced
    ensures var rows := Run(Empty(now), steps).rows;
            && a.id in rows
            && var want := if a.reroll then 1 else rows[a.id].winners;
            && |a.winners| <= want && |a.winners| <= |a.pool|
            && (|a.winners| == want || |a.winners| == |a.pool|)
  {
    RunCounts(Empty(now), steps);
    hide Run;
  }

  /** A draw of `want` out of a pool can come out as any ordered selection of that many
      entrants, and as nothing else. */
  lemma DrawsIff(pool: seq<User>, want: nat, selected: seq<User>)
    requires Distinct(pool)
    ensures (exists choices: seq<nat> ::
               |choices| == Min(want, |pool|) && Valid(choices, |pool|) && Draw(pool, choices).0 == selected)
       <==> Selection(selected, pool) && AsMany(|selected|, want, |pool|)
  {
    if choices: seq<nat> :| |choices| == Min(want, |pool|) && Valid(choices, |pool|) && Draw(pool, choices).0 == selected {
      DrawIsSelection(pool, choices);
    }
    if Selection(selected, pool) && AsMany(|selected|, want, |pool|) {
      SelectionIsDrawn(pool, selected);
      var choices := ChoicesFor(pool, selected);
      assert |choices| == |selected|;
    }
  }

  /** The giveaway at the head of the sweeper's list. */
  ghost predicate UpNext(s: State, id: Id) {
    s.queue != [] && s.queue[0] == id && id in s.rows && s.pending.None?
  }

  lemma FinishAnnounces(s: State, id: Id, pool: seq<User>, choices: seq<nat>, readOk: bool, writeOk: bool)
    requires UpNext(s, id)
    ensures var t := Next(Next(s, Finish(pool, choices, readOk, writeOk)), Announce);
            t.announced == s.announced +
              if writeOk && Drawn(s, id, s.rows[id].winners, pool, choices, readOk)
              then [Announcement(id, false, Draw(pool, choices).0, pool)] else []
  {
    assert s.announced + [] == s.announced;
    hide Drawn;
  }

  /** What finishing a giveaway can announce, the entries read and `ended` stored: any
      ordered selection of as many entrants as it has winners, or of all of them when they
      are fewer, and nothing else. */
  lemma FinishAnnouncesIff(s: State, id: Id, pool: seq<User>, selected: seq<User>)
    requires UpNext(s, id) && PoolOf(s, id, pool)
    ensures (exists choices ::
               Next(Next(s, Finish(pool, choices, true, true)), Announce).announced
               == s.announced + [Announcement(id, false, selected, pool)])
       <==> Selection(selected, pool) && AsMany(|selected|, s.rows[id].winners, |pool|)
  {
    var want := s.rows[id].winners;
    DrawsIff(pool, want, selected);
    forall choices {
      FinishAnnounces(s, id, pool, choices, true, true);
    }
    AppendedSame(s.announced);
    DrawnOnRead(s, id, want, pool);
    hide Draw, Next, Selection, AsMany, PoolOf, Drawn, Valid, Distinct;
  }

  lemma AppendedSame(log: seq<Announcement>)
    ensures forall a, b :: log + [a] == log + [b] <==> a == b
    ensures forall a :: log + [] != log + [a]
  {
    forall a, b ensures log + [a] == log + [b] <==> a == b {
      assert (log + [a])[|log|] == a && (log + [b])[|log|] == b;
    }
    forall a ensures log + [] != log + [a] {
      assert |log + []| != |log + [a]|;
    }
  }

  lemma DrawnOnRead(s: State, id: Id, want: nat, pool: seq<User>)
    requires PoolOf(s, id, pool)
    ensures forall choices :: Drawn(s, id, want, pool, choices, true) <==>
                              |choices| == Min(want, |pool|) && Valid(choices, |pool|)
  {
  }

  /** The same for a reroll of an ended giveaway: any one entrant, or nobody when there are
      none; of a giveaway that has not ended, nothing. Nothing else changes. */
  lemma RerollAnnouncesIff(s: State, id: Id, pool: seq<User>, selected: seq<User>)
    requires id in s.rows && PoolOf(s, id, pool)
    ensures (exists choices ::
               Next(s, Reroll(id, pool, choices, true)).announced == s.announced + [Announcement(id, true, selected, pool)])
       <==> s.rows[id].ended && if pool == [] then selected == [] else |selected| == 1 && selected[0] in pool
    ensures forall choices, readOk :: Next(s, Reroll(id, pool, choices, readOk)).(announced := s.announced) == s
  {
    DrawsIff(pool, 1, selected);
    forall choices {
      RerollAnnounces(s, id, pool, choices);
    }
    AppendedSame(s.announced);
    DrawnOnRead(s, id, 1, pool);
    OneOrNone(pool, selected);
    RerollOnlyAnnounces(s, id, pool);
    hide Draw, Next, Selection, AsMany, PoolOf, Drawn, Valid, Distinct;
  }

  lemma OneOrNone(pool: seq<User>, selected: seq<User>)
    ensures Selection(selected, pool) && AsMany(|selected|, 1, |pool|) <==>
              if pool == [] then selected == [] else |selected| == 1 && selected[0] in pool
  {
    if |selected| == 1 {
      assert Distinct(selected[1..]) && Distinct(selected);
      assert selected[0] in selected && forall x | x in selected :: x == selected[0];
    }
  }

  lemma RerollAnnounces(s: State, id: Id, pool: seq<User>, choices: seq<nat>)
    requires id in s.rows
    ensures Next(s, Reroll(id, pool, choices, true)).announced == s.announced +
              if s.rows[id].ended && Drawn(s, id, 1, pool, choices, true)
              then [Announcement(id, true, Draw(pool, choices).0, pool)] else []
  {
    assert s.announced + [] == s.announced;
    hide Drawn;
  }

  lemma RerollOnlyAnnounces(s: State, id: Id, pool: seq<User>)
    ensures forall choices, readOk :: Next(s, Reroll(id, pool, choices, readOk)).(announced := s.announced) == s
  {
    hide Drawn, Draw;
  }

  /** When the entries cannot be read, nobody wins. */
  lemma UnreadEntriesWinNothing(s: State, id: Id)
    requires UpNext(s, id)
    ensures var t := Next(Next(s, Finish([], [], false, true)), Announce);
            t.announced == s.announced + [Announcement(id, false, [], [])] && t.rows[id].ended
  {
  }

  lemma OpenPress(s: State, id: Id, u: User, insertOk: bool)
    requires (id, u) !in s.inflight && (id, u) !in s.leaving && id in s.rows && !s.rows[id].ended
    ensures var t := Next(Next(s, PressRead(id, u)), PressWrite(id, u, insertOk));
            t == s.(entries := t.entries, presses := t.presses, leaving := t.leaving)
            && (if !insertOk then t == s
                else if (id, u) in s.entries then t == s.(leaving := s.leaving + multiset{(id, u)})
                else t.leaving == s.leaving && t.entries == s.entries + {(id, u)})
  {
    hide Pressed, Draw, Drawn, ScanOf, Valid;
    var k := (id, u);
    assert s.inflight + multiset{k} - multiset{k} == s.inflight;
  }

  lemma LastPress(s: State, id: Id, u: User, deleteOk: bool)
    ensures var t := Next(s, PressLeave(id, u, deleteOk));
            && t.entries == (if (id, u) in s.leaving && deleteOk then s.entries - {(id, u)} else s.entries)
            && t.rows == s.rows && t.announced == s.announced && t.queue == s.queue
  {
    hide Pressed, Draw, Drawn, ScanOf, Valid;
  }

  /** One press of the button, undisturbed by others of that user: it lets them in or out if
      the giveaway is open and the database answers, and does nothing else. */
  lemma PressTogglesIff(s: State, id: Id, u: User, insertOk: bool, deleteOk: bool)
    requires (id, u) !in s.inflight && (id, u) !in s.leaving
    ensures var t := Next(Next(Next(s, PressRead(id, u)), PressWrite(id, u, insertOk)), PressLeave(id, u, deleteOk));
            var open := id in s.rows && !s.rows[id].ended;
            && (((id, u) in t.entries <==> (id, u) !in s.entries) <==> open && insertOk && ((id, u) in s.entries ==> deleteOk))
            && (forall i: Id, v: User :: (i, v) != (id, u) ==> ((i, v) in t.entries <==> (i, v) in s.entries))
            && t.rows == s.rows && t.announced == s.announced && t.queue == s.queue
  {
    var written := Next(Next(s, PressRead(id, u)), PressWrite(id, u, insertOk));
    if id in s.rows && !s.rows[id].ended {
      OpenPress(s, id, u, insertOk);
    } else {
      assert written == s by { hide Draw, Drawn, ScanOf, Valid; }
    }
    LastPress(written, id, u, deleteOk);
    hide Next, Pressed;
  }

  // ---- which giveaways the sweeper takes up -------------------------------

  /** A due giveaway is taken up again by a later scan if and only if `ended` could not be
      stored; and it was announced if and only if it could. */
  lemma FinishedForGoodIff(s: State, id: Id, pool: seq<User>, choices: seq<nat>, readOk: bool, writeOk: bool, order: seq<Id>)
    requires UpNext(s, id) && !s.rows[id].ended && s.rows[id].endsAt <= s.now
    requires Drawn(s, id, s.rows[id].winners, pool, choices, readOk)
    requires ScanOf(Next(Next(s, Finish(pool, choices, readOk, writeOk)), Announce), order)
    ensures id in order <==> !writeOk
    ensures |Next(Next(s, Finish(pool, choices, readOk, writeOk)), Announce).announced| == |s.announced| + 1 <==> writeOk
  {
    FinishAnnounces(s, id, pool, choices, readOk, writeOk);
    FinishStores(s, id, pool, choices, readOk, writeOk);
    hide Next, Drawn;
  }

  lemma FinishStores(s: State, id: Id, pool: seq<User>, choices: seq<nat>, readOk: bool, writeOk: bool)
    requires UpNext(s, id) && Drawn(s, id, s.rows[id].winners, pool, choices, readOk)
    ensures var t := Next(Next(s, Finish(pool, choices, readOk, writeOk)), Announce);
            && id in t.rows && t.now == s.now && t.queue == s.queue[1..] && t.pending.None? && t.entries == s.entries
            && t.rows[id] == s.rows[id].(ended := writeOk || s.rows[id].ended)
            && (forall i | i in t.rows && i != id :: i in s.rows && t.rows[i] == s.rows[i])
            && (forall i | i in s.rows :: i in t.rows)
  {
    hide Draw, Drawn;
  }

  /** A giveaway ended by hand is in the next scan, unless it had ended before. */
  lemma EndedByHandIsScannedIff(s: State, id: Id, order: seq<Id>)
    requires id in s.rows && ScanOf(Next(s, End(id, true)), order)
    ensures id in order <==> !s.rows[id].ended
  {
    hide Distinct;
  }

  /** A started giveaway takes entries, has the winners asked for, and is in a later scan
      exactly when its time has come. */
  lemma StartedIsScannedIff(s: State, id: Id, endsAt: int, winners: nat, wait: nat, order: seq<Id>)
    requires id !in s.rows && endsAt > s.now
    requires ScanOf(Next(Next(s, Start(id, endsAt, winners)), Tick(wait)), order)
    ensures id in order <==> endsAt <= s.now + wait
    ensures var t := Next(s, Start(id, endsAt, winners));
            t.rows[id].winners == winners && forall u :: Next(t, PressRead(id, u)).inflight == s.inflight + multiset{(id, u)}
  {
    hide Distinct;
  }

  // ---- the handlers -------------------------------------------------------

  class GiveawaysCog {
    var now: int
    var rows: map<Id, Giveaway>
    var entries: set<(Id, User)>
    var queue: seq<Id>
    var announced: seq<Announcement>
    ghost var presses: map<(Id, User), nat>

    ghost function View(): State
      reads this
    {
      State(now, rows, entries, queue, None, announced, presses, multiset{}, multiset{}, map[])
    }

    /** The entry button, undisturbed: insert, or delete when the insert finds the row. */
    method OnPress(id: Id, user: User, insertOk: bool, deleteOk: bool)
      modifies this
      ensures View() == Next(Next(Next(old(View()), PressRead(id, user)), PressWrite(id, user, insertOk)),
                             PressLeave(id, user, deleteOk))
    {
      hide Draw, Drawn, ScanOf, Valid;
      ghost var read := Next(View(), PressRead(id, user));
      if id !in rows || rows[id].ended {
        assert read == View();
        return;
      }
      assert read == View().(inflight := multiset{(id, user)});
      ghost var written := Next(read, PressWrite(id, user, insertOk));
      assert read.inflight - multiset{(id, user)} == multiset{};
      if !insertOk {
        assert written == View();
        return;
      }
      if (id, user) !in entries {
        entries := entries + {(id, user)};
        presses := presses[(id, user) := Pressed(presses, id, user) + 1];
        assert written == View();
        return;
      }
      assert written == View().(leaving := multiset{(id, user)});
      assert written.leaving - multiset{(id, user)} == multiset{};
      if deleteOk {
        entries := entries - {(id, user)};
        presses := presses[(id, user) := Pressed(presses, id, user) + 1];
      }
    }

    /** `finish_giveaway` on the sweeper's next row: draw, store `ended`, only then announce. */
    method FinishNext(pool: seq<User>, choices: seq<nat>, readOk: bool, writeOk: bool)
      requires queue != [] && queue[0] in rows
      requires Drawn(View(), queue[0], rows[queue[0]].winners, pool, choices, readOk)
      modifies this
      ensures View() == Next(Next(old(View()), Finish(pool, choices, readOk, writeOk)), Announce)
    {
      var id := queue[0];
      queue := queue[1..];
      var winners, rest := DrawLoop(pool, choices);
      if !writeOk {
        return;
      }
      rows := rows[id := rows[id].(ended := true)];
      announced := announced + [Announcement(id, false, winners, pool)];
    }

    /** `giveaway reroll`: one more winner, for ended giveaways only. */
    method GwReroll(id: Id, pool: seq<User>, choices: seq<nat>, readOk: bool) returns (done: bool)
      requires id in rows && rows[id].ended ==> Drawn(View(), id, 1, pool, choices, readOk)
      modifies this`announced
      ensures done == (id in rows && rows[id].ended)
      ensures View() == Next(old(View()), Reroll(id, pool, choices, readOk))
    {
      done := id in rows && rows[id].ended;
      if done {
        var winners, rest := DrawLoop(pool, choices);
        announced := announced + [Announcement(id, true, winners, pool)];
      }
    }
  }
}
