/**
 The role hierarchy: `role_rank`, `top_role`, the guarded role commands, and the
 moderators' right to act on a member.
 */
module Roles {
  import opened Base

  type RoleId = nat
  type UserId = nat

  datatype Role = Role(id: RoleId, position: int)

  /** A role's place: position first; at equal positions the older (smaller) id is higher. */
  datatype Rank = Rank(position: int, id: RoleId)

  function RoleRank(r: Role): Rank {
    Rank(r.position, r.id)
  }

  predicate Less(a: Rank, b: Rank) {
    a.position < b.position || (a.position == b.position && a.id > b.id)
  }

  function MaxRole(best: Option<Role>, r: Role): Option<Role> {
    if best.None? || !Less(RoleRank(r), RoleRank(best.value)) then Some(r) else best
  }

  /** The highest of the listed roles that exist, `@everyone` coming last. */
  function TopOf(held: seq<RoleId>, roles: map<RoleId, Role>, everyone: RoleId): Option<Role> {
    if held == [] then
      if everyone in roles then Some(roles[everyone]) else None
    else
      var rest := TopOf(held[1..], roles, everyone);
      if held[0] in roles then MaxRole(rest, roles[held[0]]) else rest
  }

  /** A guild with one bot. Every role is stored under its own id. */
  datatype Guild = Guild(roles: map<RoleId, Role>, everyone: RoleId, owner: UserId, bot: UserId,
                         members: map<UserId, seq<RoleId>>)

  ghost predicate Consistent(roles: map<RoleId, Role>) {
    forall id | id in roles :: roles[id].id == id
  }

  /** `r` is the top role: it is held, or it is `@everyone`, and nothing held is above it. */
  ghost predicate IsTop(r: Role, held: seq<RoleId>, roles: map<RoleId, Role>, everyone: RoleId) {
    && r.id in roles && roles[r.id] == r && (r.id in held || r.id == everyone)
    && (forall id | id in held && id in roles :: !Less(RoleRank(r), RoleRank(roles[id])))
    && (everyone in roles ==> !Less(RoleRank(r), RoleRank(roles[everyone])))
  }

  lemma {:induction false} TopOfIsTop(held: seq<RoleId>, roles: map<RoleId, Role>, everyone: RoleId)
    requires Consistent(roles)
    ensures everyone in roles ==> TopOf(held, roles, everyone).Some?
    ensures var t := TopOf(held, roles, everyone);
            if t.Some? then IsTop(t.value, held, roles, everyone)
            else everyone !in roles && forall id | id in held :: id !in roles
  {
    if held != [] {
      TopOfIsTop(held[1..], roles, everyone);
      assert forall id | id in held :: id == held[0] || id in held[1..];
    }
  }

  /** Ranks of distinct roles differ, so the top role is determined by what is held. */
  lemma TopIsUnique(a: Role, b: Role, held: seq<RoleId>, roles: map<RoleId, Role>, everyone: RoleId)
    requires IsTop(a, held, roles, everyone) && IsTop(b, held, roles, everyone)
    ensures a == b
  {
  }

  lemma TopOfUnchanged(held: seq<RoleId>, held': seq<RoleId>, roles: map<RoleId, Role>, everyone: RoleId, t: Role)
    requires Consistent(roles) && TopOf(held, roles, everyone) == Some(t)
    requires IsTop(t, held', roles, everyone)
    ensures TopOf(held', roles, everyone) == Some(t)
  {
    TopOfIsTop(held', roles, everyone);
    TopIsUnique(t, TopOf(held', roles, everyone).value, held', roles, everyone);
  }

  // ---- single role changes ------------------------------------------------

  function With(held: seq<RoleId>, id: RoleId): seq<RoleId> {
    if id in held then held else held + [id]
  }

  /** Exactly when one API call leaves the top role in place: an addition if it is
      not above the top, a removal if it is not the top (or the top is `@everyone`). */
  lemma ChangeKeepsTopIff(held: seq<RoleId>, id: RoleId, roles: map<RoleId, Role>, everyone: RoleId, t: Role)
    requires Consistent(roles) && TopOf(held, roles, everyone) == Some(t)
    ensures id in roles ==>
              (TopOf(With(held, id), roles, everyone) == Some(t) <==> !Less(RoleRank(t), RoleRank(roles[id])))
    ensures TopOf(Without(held, id), roles, everyone) == Some(t) <==> id != t.id || id == everyone
  {
    TopOfIsTop(held, roles, everyone);
    TopOfIsTop(With(held, id), roles, everyone);
    TopOfIsTop(Without(held, id), roles, everyone);
    assert id in With(held, id);
    if id in roles && !Less(RoleRank(t), RoleRank(roles[id])) {
      TopOfUnchanged(held, With(held, id), roles, everyone, t);
    }
    if id != t.id || id == everyone {
      TopOfUnchanged(held, Without(held, id), roles, everyone, t);
    }
  }

  // ---- the commands -------------------------------------------------------

  function TopRank(g: Guild, u: UserId): Option<Rank> {
    if u !in g.members then None
    else match TopOf(g.members[u], g.roles, g.everyone)
      case None => None
      case Some(r) => Some(RoleRank(r))
  }

  /** One argument of `role custom`: its sign and the role its name resolved to. */
  datatype Request = Request(sigil: char, role: Option<RoleId>)

  /** Requests sorted into additions and removals; None when a name is unknown. */
  function Partitioned(requests: seq<Request>, held: seq<RoleId>): Option<(seq<RoleId>, seq<RoleId>)> {
    if requests == [] then Some(([], []))
    else
      var q, rest := requests[0], Partitioned(requests[1..], held);
      if q.sigil !in "+-!" then rest
      else if q.role.None? || rest.None? then None
      else
        var id := q.role.value;
        if q.sigil == '+' || (q.sigil == '!' && id !in held) then Some(([id] + rest.value.0, rest.value.1))
        else Some((rest.value.0, [id] + rest.value.1))
  }

  datatype Command =
    | Add(role: RoleId)
    | Remove(role: RoleId)
    | Custom(requests: seq<Request>)

  /** The role changes a command asks for. */
  function Changes(c: Command, held: seq<RoleId>): Option<(seq<RoleId>, seq<RoleId>)> {
    match c
    case Add(id) => Some(([id], []))
    case Remove(id) => Some(([], [id]))
    case Custom(requests) => Partitioned(requests, held)
  }

  /** `bot_top_rank`: without an answer, or without any role, the rank of `@everyone`. */
  function BotTopRank(g: Guild, fetched: bool): Rank {
    var default := if g.everyone in g.roles then RoleRank(g.roles[g.everyone]) else Rank(0, g.everyone);
    if fetched then TopRank(g, g.bot).GetOr(default) else default
  }

  /** The guards: the author stands at least as high as the member, nothing added is
      above the member's top role or at the bot's, and the top role is not removed. */
  predicate Permitted(g: Guild, author: UserId, member: UserId, c: Command, botFetched: bool) {
    && author in g.members && member in g.members
    && var changes := Changes(c, g.members[member]);
       var at, mt := TopRank(g, author), TopRank(g, member);
       && changes.Some? && at.Some? && mt.Some?
       && !Less(at.value, mt.value)
       && (forall id | id in changes.value.0 && id in g.roles ::
             !Less(mt.value, RoleRank(g.roles[id])) && Less(RoleRank(g.roles[id]), BotTopRank(g, botFetched)))
       && mt.value.id !in changes.value.1
  }

  /** The effects in order; `ok` tells of each API call whether it went through. */
  function Applied(held: seq<RoleId>, add: seq<RoleId>, remove: seq<RoleId>, ok: seq<bool>): seq<RoleId>
    requires |ok| == |add| + |remove|
    decreases |add| + |remove|
  {
    if add != [] then Applied(if ok[0] then With(held, add[0]) else held, add[1..], remove, ok[1..])
    else if remove != [] then Applied(if ok[0] then Without(held, remove[0]) else held, add, remove[1..], ok[1..])
    else held
  }

  /** A command, whether the bot's own membership could be fetched, and of each API call
      whether it went through. */
  datatype Event = Event(author: UserId, member: UserId, command: Command, botFetched: bool, ok: seq<bool>)

  /** Roles named by commands are roles of the guild (arguments resolve against it). */
  ghost predicate WellTyped(roles: map<RoleId, Role>, e: Event) {
    match e.command
    case Add(id) => id in roles
    case Remove(id) => id in roles
    case Custom(requests) => forall q | q in requests :: q.role.Some? ==> q.role.value in roles
  }

  function Step(g: Guild, e: Event): Guild {
    if !Permitted(g, e.author, e.member, e.command, e.botFetched) then g
    else
      var changes := Changes(e.command, g.members[e.member]).value;
      if |e.ok| != |changes.0| + |changes.1| then g
      else g.(members := g.members[e.member := Applied(g.members[e.member], changes.0, changes.1, e.ok)])
  }

  ghost function Run(g: Guild, events: seq<Event>): Guild
    decreases events
  {
    if events == [] then g else Run(Step(g, events[0]), events[1..])
  }

  // ---- the invariant ------------------------------------------------------

  lemma {:induction false} AppliedKeepsTop(held: seq<RoleId>, add: seq<RoleId>, remove: seq<RoleId>, ok: seq<bool>,
                                           roles: map<RoleId, Role>, everyone: RoleId, t: Role)
    requires |ok| == |add| + |remove|
    requires Consistent(roles) && TopOf(held, roles, everyone) == Some(t)
    requires forall id | id in add :: id in roles && !Less(RoleRank(t), RoleRank(roles[id]))
    requires t.id !in remove
    ensures TopOf(Applied(held, add, remove, ok), roles, everyone) == Some(t)
    decreases |add| + |remove|
  {
    if add != [] {
      ChangeKeepsTopIff(held, add[0], roles, everyone, t);
      AppliedKeepsTop(if ok[0] then With(held, add[0]) else held, add[1..], remove, ok[1..], roles, everyone, t);
    } else if remove != [] {
      ChangeKeepsTopIff(held, remove[0], roles, everyone, t);
      AppliedKeepsTop(if ok[0] then Without(held, remove[0]) else held, add, remove[1..], ok[1..], roles, everyone, t);
    }
  }

  lemma {:induction false} PartitionResolves(g: Guild, requests: seq<Request>, held: seq<RoleId>)
    requires forall q | q in requests :: q.role.Some? ==> q.role.value in g.roles
    ensures var s := Partitioned(requests, held);
            s.Some? ==> forall id | id in s.value.0 :: id in g.roles
  {
    if requests != [] {
      PartitionResolves(g, requests[1..], held);
    }
  }

  lemma StepKeepsTops(g: Guild, e: Event, u: UserId)
    requires Consistent(g.roles) && WellTyped(g.roles, e)
    ensures TopRank(Step(g, e), u) == TopRank(g, u)
  {
    var g' := Step(g, e);
    if g' != g && u == e.member {
      var held := g.members[u];
      var changes := Changes(e.command, held).value;
      if e.command.Custom? { PartitionResolves(g, e.command.requests, held); }
      var t := TopOf(held, g.roles, g.everyone).value;
      AppliedKeepsTop(held, changes.0, changes.1, e.ok, g.roles, g.everyone, t);
    }
  }

  /** Over any run of role commands, with any API calls failing, nobody's top role moves. */
  lemma {:induction false} RunKeepsTops(g: Guild, events: seq<Event>, u: UserId)
    requires Consistent(g.roles) && forall e | e in events :: WellTyped(g.roles, e)
    ensures Run(g, events).(members := g.members) == g
    ensures TopRank(Run(g, events), u) == TopRank(g, u)
    decreases events
  {
    if events != [] {
      StepKeepsTops(g, events[0], u);
      RunKeepsTops(Step(g, events[0]), events[1..], u);
    }
  }

  // ---- the command bodies -------------------------------------------------

  /** The guild as the cog sees it; only memberships change. */
  class RolesCog {
    const roles: map<RoleId, Role>
    const everyone: RoleId
    const owner: UserId
    const bot: UserId
    var members: map<UserId, seq<RoleId>>

    function State(): Guild
      reads this
    {
      Guild(roles, everyone, owner, bot, members)
    }

    /** The token loop of `role custom`. */
    method Partition(requests: seq<Request>, held: seq<RoleId>) returns (changes: Option<(seq<RoleId>, seq<RoleId>)>)
      ensures changes == Partitioned(requests, held)
    {
      var add, remove := [], [];
      assert requests[0..] == requests;
      PrependNothing(Partitioned(requests, held));
      for i := 0 to |requests|
        invariant Partitioned(requests, held) == Prepended(add, remove, Partitioned(requests[i..], held))
      {
        var q := requests[i];
        assert requests[i..][1..] == requests[i + 1..];
        if q.role.Some? && Partitioned(requests[i + 1..], held).Some? {
          PrependedTwice(add, remove, q.role.value, Partitioned(requests[i + 1..], held));
        }
        if q.sigil !in "+-!" {
          continue;
        }
        if q.role.None? {
          return None;
        }
        if q.sigil == '+' || (q.sigil == '!' && q.role.value !in held) {
          add := add + [q.role.value];
        } else {
          remove := remove + [q.role.value];
        }
      }
      assert add + [] == add && remove + [] == remove;
      return Some((add, remove));
    }

    /** Additions, then removals, a failed call changing nothing. */
    method ApplyChanges(member: UserId, add: seq<RoleId>, remove: seq<RoleId>, ok: seq<bool>)
      requires member in members && |ok| == |add| + |remove|
      modifies this`members
      ensures members == old(members)[member := Applied(old(members[member]), add, remove, ok)]
    {
      ghost var whole := Applied(members[member], add, remove, ok);
      for i := 0 to |add|
        invariant member in members && members == old(members)[member := members[member]]
        invariant whole == Applied(members[member], add[i..], remove, ok[i..])
      {
        assert add[i..][1..] == add[i + 1..] && ok[i..][1..] == ok[i + 1..];
        if ok[i] {
          members := members[member := With(members[member], add[i])];
        }
      }
      for i := 0 to |remove|
        invariant member in members && members == old(members)[member := members[member]]
        invariant whole == Applied(members[member], [], remove[i..], ok[|add| + i..])
      {
        assert remove[i..][1..] == remove[i + 1..] && ok[|add| + i..][1..] == ok[|add| + i + 1..];
        if ok[|add| + i] {
          members := members[member := Without(members[member], remove[i])];
        }
      }
    }

    /** `role add`, `role remove` and `role custom`; the API answers are given. */
    method Execute(e: Event)
      modifies this`members
      ensures State() == Step(old(State()), e)
    {
      if e.author !in members || e.member !in members {
        return;
      }
      var changes := Changes(e.command, members[e.member]);
      if e.command.Custom? {
        changes := Partition(e.command.requests, members[e.member]);
      }
      if !Permitted(State(), e.author, e.member, e.command, e.botFetched)
         || |e.ok| != |changes.value.0| + |changes.value.1| {
        return;
      }
      ApplyChanges(e.member, changes.value.0, changes.value.1, e.ok);
    }
  }

  function Prepended(add: seq<RoleId>, remove: seq<RoleId>, rest: Option<(seq<RoleId>, seq<RoleId>)>):
    Option<(seq<RoleId>, seq<RoleId>)>
  {
    if rest.None? then None else Some((add + rest.value.0, remove + rest.value.1))
  }

  lemma PrependNothing(rest: Option<(seq<RoleId>, seq<RoleId>)>)
    ensures Prepended([], [], rest) == rest
  {
    if rest.Some? {
      assert [] + rest.value.0 == rest.value.0 && [] + rest.value.1 == rest.value.1;
    }
  }

  lemma PrependedTwice(add: seq<RoleId>, remove: seq<RoleId>, id: RoleId, rest: Option<(seq<RoleId>, seq<RoleId>)>)
    requires rest.Some?
    ensures Prepended(add + [id], remove, rest) == Prepended(add, remove, Some(([id] + rest.value.0, rest.value.1)))
    ensures Prepended(add, remove + [id], rest) == Prepended(add, remove, Some((rest.value.0, [id] + rest.value.1)))
  {
    Assoc(add, [id], rest.value.0);
    Assoc(remove, [id], rest.value.1);
  }

  // ---- who may act on whom ------------------------------------------------

  /** `can_act_on` returned no objection. */
  predicate CanAct(g: Guild, invoker: UserId, target: UserId) {
    if target == g.owner then false
    else if invoker == g.owner then true
    else
      var it, tt := TopRank(g, invoker), TopRank(g, target);
      it.Some? && tt.Some? ==> Less(tt.value, it.value)
  }

  /** Among members of a guild that has its `@everyone` role, the owner included,
      the right to act is a strict partial order. */
  lemma ActingIsStrictOrder(g: Guild, a: UserId, b: UserId, c: UserId)
    requires Consistent(g.roles) && g.everyone in g.roles
    requires a in g.members && b in g.members && c in g.members
    ensures !CanAct(g, a, a)
    ensures CanAct(g, a, b) ==> !CanAct(g, b, a)
    ensures CanAct(g, a, b) && CanAct(g, b, c) ==> CanAct(g, a, c)
  {
    TopOfIsTop(g.members[a], g.roles, g.everyone);
    TopOfIsTop(g.members[b], g.roles, g.everyone);
    TopOfIsTop(g.members[c], g.roles, g.everyone);
  }

  /** No run of role commands changes who may act on whom. */
  lemma ActingIsStable(g: Guild, events: seq<Event>, a: UserId, b: UserId)
    requires Consistent(g.roles) && forall e | e in events :: WellTyped(g.roles, e)
    ensures CanAct(Run(g, events), a, b) <==> CanAct(g, a, b)
  {
    RunKeepsTops(g, events, a);
    RunKeepsTops(g, events, b);
  }

  // ---- the guards, read off positions and ids -----------------------------

  /** Discord's order of two roles: the higher position, then the smaller id. */
  predicate Above(x: Role, y: Role) {
    x.position > y.position || (x.position == y.position && x.id < y.id)
  }

  /** A role `u` has: an existing one they hold, or `@everyone`. */
  predicate Carries(g: Guild, u: UserId, id: RoleId) {
    u in g.members && id in g.roles && (id in g.members[u] || id == g.everyone)
  }

  /** Some role of `u` stands above that role. */
  ghost predicate Outranks(g: Guild, u: UserId, r: Role) {
    exists id :: Carries(g, u, id) && Above(g.roles[id], r)
  }

  /** Some role of `a` stands above every role of `b`. */
  ghost predicate OutranksMember(g: Guild, a: UserId, b: UserId) {
    exists id :: Carries(g, a, id) && forall other :: Carries(g, b, other) ==> Above(g.roles[id], g.roles[other])
  }

  lemma TopCarried(g: Guild, u: UserId) returns (t: Role)
    requires Consistent(g.roles) && g.everyone in g.roles && u in g.members
    ensures TopOf(g.members[u], g.roles, g.everyone) == Some(t) && TopRank(g, u) == Some(RoleRank(t))
    ensures Carries(g, u, t.id) && g.roles[t.id] == t
    ensures forall id: RoleId :: Carries(g, u, id) ==> t == g.roles[id] || Above(t, g.roles[id])
  {
    TopOfIsTop(g.members[u], g.roles, g.everyone);
    t := TopOf(g.members[u], g.roles, g.everyone).value;
  }

  lemma OutranksByTop(g: Guild, u: UserId, t: Role, r: Role)
    requires Carries(g, u, t.id) && g.roles[t.id] == t
    requires forall id: RoleId :: Carries(g, u, id) ==> t == g.roles[id] || Above(t, g.roles[id])
    ensures Outranks(g, u, r) <==> Above(t, r)
  {
  }

  /** `can_act_on`, for a guild that has its `@everyone`: the owner may act on anyone and
      nobody on the owner; who is no member has nothing to compare; and between members
      some role of the one must stand above every role of the other. */
  lemma CanActIff(g: Guild, a: UserId, b: UserId)
    requires Consistent(g.roles) && g.everyone in g.roles
    ensures CanAct(g, a, b) <==>
              b != g.owner && (a == g.owner || a !in g.members || b !in g.members || OutranksMember(g, a, b))
  {
    if b != g.owner && a != g.owner && a in g.members && b in g.members {
      var ta := TopCarried(g, a);
      var tb := TopCarried(g, b);
      hide TopRank, TopOf, Carries;
      if OutranksMember(g, a, b) {
        var id :| Carries(g, a, id) && forall other :: Carries(g, b, other) ==> Above(g.roles[id], g.roles[other]);
        assert Above(g.roles[id], tb);
      }
    }
  }

  /** The command asks for `id` to be given; a toggle gives what is not held. */
  ghost predicate Asked(c: Command, held: seq<RoleId>, id: RoleId) {
    match c
    case Add(x) => x == id
    case Remove(_) => false
    case Custom(requests) =>
      exists q :: q in requests && q.role == Some(id) && (q.sigil == '+' || (q.sigil == '!' && id !in held))
  }

  /** The command asks for `id` to be taken away; a toggle takes what is held. */
  ghost predicate Unasked(c: Command, held: seq<RoleId>, id: RoleId) {
    match c
    case Add(_) => false
    case Remove(x) => x == id
    case Custom(requests) =>
      exists q :: q in requests && q.role == Some(id) && (q.sigil == '-' || (q.sigil == '!' && id in held))
  }

  /** A signed name that no role answers to; names without a sign are ignored. */
  ghost predicate Unresolved(c: Command) {
    c.Custom? && exists q :: q in c.requests && q.role.None? && (q.sigil == '+' || q.sigil == '-' || q.sigil == '!')
  }

  lemma CustomHead(requests: seq<Request>, held: seq<RoleId>)
    requires requests != []
    ensures var c, head, rest := Custom(requests), Custom([requests[0]]), Custom(requests[1..]);
            && (Unresolved(c) <==> Unresolved(head) || Unresolved(rest))
            && (forall id: RoleId :: Asked(c, held, id) <==> Asked(head, held, id) || Asked(rest, held, id))
            && (forall id: RoleId :: Unasked(c, held, id) <==> Unasked(head, held, id) || Unasked(rest, held, id))
  {
    assert forall q :: q in requests <==> q in [requests[0]] || q in requests[1..];
  }

  /** The token loop refuses exactly on an unresolved signed name, and else gives and takes
      exactly what is asked for. */
  lemma {:induction false} PartitionedIs(requests: seq<Request>, held: seq<RoleId>)
    ensures var p, c := Partitioned(requests, held), Custom(requests);
            && (p.None? <==> Unresolved(c))
            && (p.Some? ==> forall id: RoleId :: (id in p.value.0 <==> Asked(c, held, id)) && (id in p.value.1 <==> Unasked(c, held, id)))
  {
    if requests != [] {
      PartitionedIs(requests[1..], held);
      CustomHead(requests, held);
      HeadOnly(requests[0], held);
      hide Asked, Unasked, Unresolved;
    }
  }

  lemma HeadOnly(q: Request, held: seq<RoleId>)
    ensures var c := Custom([q]);
            && (Unresolved(c) <==> q.sigil in "+-!" && q.role.None?)
            && (forall id: RoleId :: Asked(c, held, id) <==> q.role == Some(id) && (q.sigil == '+' || (q.sigil == '!' && id !in held)))
            && (forall id: RoleId :: Unasked(c, held, id) <==> q.role == Some(id) && (q.sigil == '-' || (q.sigil == '!' && id in held)))
  {
    assert forall x :: x in [q] <==> x == q;
  }

  lemma ChangesAre(c: Command, held: seq<RoleId>)
    ensures var p := Changes(c, held);
            && (p.None? <==> Unresolved(c))
            && (p.Some? ==> forall id: RoleId :: (id in p.value.0 <==> Asked(c, held, id)) && (id in p.value.1 <==> Unasked(c, held, id)))
  {
    if c.Custom? {
      PartitionedIs(c.requests, held);
    }
  }

  /** The bot's top role stands above that role; an unfetched bot has only `@everyone`. */
  ghost predicate BotOutranks(g: Guild, fetched: bool, r: Role) {
    if fetched && g.bot in g.members then Outranks(g, g.bot, r)
    else g.everyone in g.roles && Above(g.roles[g.everyone], r)
  }

  lemma BotRankIs(g: Guild, fetched: bool, r: Role)
    requires Consistent(g.roles) && g.everyone in g.roles
    ensures Less(RoleRank(r), BotTopRank(g, fetched)) <==> BotOutranks(g, fetched, r)
  {
    if fetched && g.bot in g.members {
      var t := TopCarried(g, g.bot);
      OutranksByTop(g, g.bot, t, r);
      hide Outranks;
    }
  }

  /** It is a role of `u`, and none of theirs stands above it. */
  ghost predicate TopRoleOf(g: Guild, u: UserId, id: RoleId) {
    Carries(g, u, id) && !Outranks(g, u, g.roles[id])
  }

  /** When `role add`, `role remove` and `role custom` go ahead: every signed name resolves,
      the member does not outrank the author, what is given stands below the bot and not
      above the member's top role, and that top role is not taken. */
  lemma PermittedIff(g: Guild, author: UserId, member: UserId, c: Command, fetched: bool)
    requires Consistent(g.roles) && g.everyone in g.roles && author in g.members && member in g.members
    ensures Permitted(g, author, member, c, fetched) <==>
              && !Unresolved(c)
              && !OutranksMember(g, member, author)
              && (forall id | id in g.roles && Asked(c, g.members[member], id) ::
                    BotOutranks(g, fetched, g.roles[id])
                    && exists top :: TopRoleOf(g, member, top) && !Above(g.roles[id], g.roles[top]))
              && (forall id | Unasked(c, g.members[member], id) :: !TopRoleOf(g, member, id))
  {
    var held := g.members[member];
    var ta := TopCarried(g, author);
    var tm := TopCarried(g, member);
    ChangesAre(c, held);
    MemberAboveAuthor(g, member, author, tm, ta);
    forall id | id in g.roles ensures Less(RoleRank(g.roles[id]), BotTopRank(g, fetched)) <==> BotOutranks(g, fetched, g.roles[id]) {
      BotRankIs(g, fetched, g.roles[id]);
    }
    OnlyTop(g, member, tm);
    hide TopRank, TopOf, Changes, Asked, Unasked, Unresolved, BotOutranks, BotTopRank, OutranksMember, TopRoleOf, Carries, With, Without, Applied;
  }

  lemma OnlyTop(g: Guild, u: UserId, t: Role)
    requires Consistent(g.roles) && Carries(g, u, t.id) && g.roles[t.id] == t
    requires forall id: RoleId :: Carries(g, u, id) ==> t == g.roles[id] || Above(t, g.roles[id])
    ensures forall id: RoleId :: TopRoleOf(g, u, id) <==> id == t.id
  {
    forall id ensures TopRoleOf(g, u, id) <==> id == t.id {
      if Carries(g, u, id) {
        OutranksByTop(g, u, t, g.roles[id]);
      }
      hide Outranks;
    }
  }

  lemma MemberAboveAuthor(g: Guild, a: UserId, b: UserId, ta: Role, tb: Role)
    requires Carries(g, a, ta.id) && g.roles[ta.id] == ta && Carries(g, b, tb.id) && g.roles[tb.id] == tb
    requires forall id: RoleId :: Carries(g, a, id) ==> ta == g.roles[id] || Above(ta, g.roles[id])
    requires forall id: RoleId :: Carries(g, b, id) ==> tb == g.roles[id] || Above(tb, g.roles[id])
    ensures OutranksMember(g, a, b) <==> Above(ta, tb)
  {
    if OutranksMember(g, a, b) {
      var id :| Carries(g, a, id) && forall other :: Carries(g, b, other) ==> Above(g.roles[id], g.roles[other]);
      assert Above(g.roles[id], tb);
    }
  }

  /** Given the answers, a role is held afterwards exactly if it was held or an addition of
      it went through, and no removal of it did. */
  lemma {:induction false} AppliedIs(held: seq<RoleId>, add: seq<RoleId>, remove: seq<RoleId>, ok: seq<bool>, id: RoleId)
    requires |ok| == |add| + |remove|
    ensures id in Applied(held, add, remove, ok) <==>
              && (id in held || exists i | 0 <= i < |add| :: add[i] == id && ok[i])
              && !exists j | 0 <= j < |remove| :: remove[j] == id && ok[|add|..][j]
    decreases |add| + |remove|
  {
    if add != [] {
      AppliedIs(if ok[0] then With(held, add[0]) else held, add[1..], remove, ok[1..], id);
      assert (exists i | 0 <= i < |add| :: add[i] == id && ok[i]) <==>
             (add[0] == id && ok[0]) || exists i | 0 <= i < |add[1..]| :: add[1..][i] == id && ok[1..][i] by {
        FirstOrLater(add, ok, id);
      }
      assert ok[1..][|add[1..]|..] == ok[|add|..];
    } else if remove != [] {
      AppliedIs(if ok[0] then Without(held, remove[0]) else held, add, remove[1..], ok[1..], id);
      FirstOrLater(remove, ok, id);
    }
  }

  lemma FirstOrLater(ids: seq<RoleId>, ok: seq<bool>, id: RoleId)
    requires 0 < |ids| <= |ok|
    ensures (exists i | 0 <= i < |ids| :: ids[i] == id && ok[i]) <==>
            (ids[0] == id && ok[0]) || exists i | 0 <= i < |ids[1..]| :: ids[1..][i] == id && ok[1..][i]
  {
    if i :| 0 <= i < |ids| && ids[i] == id && ok[i] {
      if i > 0 {
        assert ids[1..][i - 1] == id && ok[1..][i - 1];
      }
    }
  }

  /** A refused command changes nothing. After a permitted one whose calls all go through the
      member holds what they held or were to be given, less what was to be taken, and nobody
      else's roles move. */
  lemma CommandDoes(g: Guild, e: Event, id: RoleId)
    requires e.member in g.members && forall i | 0 <= i < |e.ok| :: e.ok[i]
    ensures var held, g' := g.members[e.member], Step(g, e);
            && g'.roles == g.roles && g'.members.Keys == g.members.Keys
            && (forall u | u in g.members && u != e.member :: g'.members[u] == g.members[u])
            && (!Permitted(g, e.author, e.member, e.command, e.botFetched) ==> g' == g)
            && (Permitted(g, e.author, e.member, e.command, e.botFetched) && CallsMatch(g, e) ==>
                  (id in g'.members[e.member] <==>
                     (id in held || Asked(e.command, held, id)) && !Unasked(e.command, held, id)))
  {
    var held := g.members[e.member];
    if Permitted(g, e.author, e.member, e.command, e.botFetched) && CallsMatch(g, e) {
      var changes := Changes(e.command, held).value;
      ChangesAre(e.command, held);
      AppliedIs(held, changes.0, changes.1, e.ok, id);
    }
    hide Applied, Changes, Asked, Unasked, Permitted;
  }

  /** There is one answer for each call the command makes. */
  predicate CallsMatch(g: Guild, e: Event)
    requires e.member in g.members
  {
    var changes := Changes(e.command, g.members[e.member]);
    changes.Some? && |e.ok| == |changes.value.0| + |changes.value.1|
  }
}
