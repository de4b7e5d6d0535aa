/** Repeated entries of the prefix cache: how often each prefix is listed after any run, and
    when the limit of 15 strikes because of them. */
module Copies {
  import opened Base
  import opened Prefixes

  function Listed(list: seq<string>, p: string): nat {
    multiset(list)[p]
  }

  function CopiesOf(s: State, g: Guild, p: string): nat {
    Listed(Cached(s.cache, g), p)
  }

  /** The event puts a new list, or the table's own, in place of what was cached. */
  predicate Relists(c: Config, s: State, e: Event, g: Guild) {
    || (e.Put? && e.guild == g && Answer(c, s, e).Done?)
    || (g !in s.cache && g in Next(c, s, e).cache)
  }

  /** How often `p` is listed after an event, `k` times before: never when it is not stored,
      once more on `ready`, once when it is added or the list is made anew. */
  function Expected(c: Config, s: State, e: Event, g: Guild, p: string, k: nat): nat {
    if p !in RowsOf(Next(c, s, e).rows, g) then 0
    else if e.Ready? then k + 1
    else if p !in RowsOf(s.rows, g) || Relists(c, s, e, g) then 1
    else k
  }

  /** The same over a run of events. */
  function ExpectedAfter(c: Config, s: State, events: seq<Event>, g: Guild, p: string, k: nat): nat
    decreases |events|
  {
    if events == [] then k
    else ExpectedAfter(c, Next(c, s, events[0]), events[1..], g, p, Expected(c, s, events[0], g, p, k))
  }

  // ---- lists --------------------------------------------------------------

  lemma {:induction false} ListsOnce<T>(listing: seq<T>, all: set<T>, x: T)
    requires Lists(listing, all)
    ensures multiset(listing)[x] == if x in all then 1 else 0
  {
    if listing != [] {
      ListsOnce(listing[1..], all - {listing[0]}, x);
      HeadAndTail(listing);
    }
  }

  lemma HeadRepeats(s: seq<string>)
    requires s != []
    ensures s[0] in s[1..] ==> SetOf(s) == SetOf(s[1..])
  {
    SetOfHead(s);
  }

  lemma {:induction false} DistinctOnce(s: seq<string>, x: string)
    requires |SetOf(s)| == |s|
    ensures multiset(s)[x] == if x in s then 1 else 0
  {
    if s != [] {
      SetOfIsSmaller(s[1..]);
      SetOfHead(s);
      HeadAndTail(s);
      HeadRepeats(s);
      DistinctOnce(s[1..], x);
    }
  }

  lemma {:induction false} WithoutCopies(list: seq<string>, q: string, p: string)
    ensures Listed(Without(list, q), p) == if p == q then 0 else Listed(list, p)
  {
    if list != [] {
      HeadAndTail(list);
      WithoutCopies(list[1..], q, p);
    }
  }

  lemma {:induction false} WithoutLength(list: seq<string>, q: string)
    ensures |list| == Listed(list, q) + |Without(list, q)|
  {
    if list != [] {
      HeadAndTail(list);
      WithoutLength(list[1..], q);
    }
  }

  lemma SortedListed(list: seq<string>, p: string)
    ensures Listed(SortByLen(list), p) == Listed(list, p)
  {
  }

  lemma PushListed(list: seq<string>, q: string, p: string)
    ensures Listed(list + [q], p) == Listed(list, p) + if p == q then 1 else 0
  {
  }

  lemma NotStoredNotListed(c: Config, s: State, g: Guild, p: string)
    requires Inv(c, s)
    ensures p !in RowsOf(s.rows, g) ==> CopiesOf(s, g, p) == 0
    ensures g !in s.cache ==> CopiesOf(s, g, p) == 0
  {
    if g in s.cache {
      assert p in s.cache[g] <==> p in SetOf(s.cache[g]);
    }
  }

  lemma CurrentListed(c: Config, s: State, g: Guild, listing: seq<string>, p: string)
    requires Lists(listing, RowsOf(s.rows, g))
    ensures Listed(CustomPrefixes(s, g, listing), p) ==
              if g in s.cache then CopiesOf(s, g, p) else if p in RowsOf(s.rows, g) then 1 else 0
  {
    ListsOnce(listing, RowsOf(s.rows, g), p);
    SortedListed(listing, p);
  }

  // ---- one event ----------------------------------------------------------

  lemma {:induction false} PushAllListed(cache: map<Guild, seq<string>>, all: seq<Row>, rows: set<Row>, g: Guild, p: string)
    requires Lists(all, rows)
    ensures Listed(Cached(PushAll(cache, all), g), p)
            == Listed(Cached(cache, g), p) + if Row(g, p) in rows then 1 else 0
    decreases |all|
  {
    if all != [] {
      var h, q, list := all[0].guild, all[0].prefix, Cached(cache, all[0].guild);
      PushAllListed(cache[h := list + [q]], all[1..], rows - {all[0]}, g, p);
      CachedAfter(cache, h, list + [q], g);
      PushListed(list, q, p);
      hide Cached, Listed;
      assert all[0] == Row(h, q);
    }
  }

  lemma StoredIffRow(rows: set<Row>, g: Guild, p: string)
    ensures p in RowsOf(rows, g) <==> Row(g, p) in rows
  {
  }

  lemma ReadyCopies(c: Config, s: State, e: Event, g: Guild, p: string)
    requires Inv(c, s) && Faithful(s, e) && e.Ready?
    ensures CopiesOf(Next(c, s, e), g, p) == Expected(c, s, e, g, p, CopiesOf(s, g, p))
  {
    var pushed := PushAll(s.cache, e.all);
    PushAllListed(s.cache, e.all, s.rows, g, p);
    StoredIffRow(s.rows, g, p);
    NotStoredNotListed(c, s, g, p);
    if g in pushed {
      SortedListed(pushed[g], p);
    }
    hide Inv, PushAll, RowsOf, SortByLen, Lists, Listed;
  }

  lemma Unchanged(c: Config, s: State, e: Event, g: Guild, p: string)
    requires Inv(c, s) && Next(c, s, e) == s && !e.Ready? && Answer(c, s, e).Refused?
    ensures CopiesOf(Next(c, s, e), g, p) == Expected(c, s, e, g, p, CopiesOf(s, g, p))
  {
    hide Next, Answer, CopiesOf;
    NotStoredNotListed(c, s, g, p);
  }

  lemma ExpectedOnAdd(c: Config, s: State, e: Event, p: string, k: nat)
    requires e.Add? && Answer(c, s, e).Done?
    ensures Expected(c, s, e, e.guild, p, k) ==
              if p == Sanitize(e.raw, c.white).text then (if p in RowsOf(s.rows, e.guild) && e.guild in s.cache then k else 1)
              else if p !in RowsOf(s.rows, e.guild) then 0
              else if e.guild !in s.cache then 1 else k
  {
    AddIs(c, s, e);
    hide Next, RowsOf, SortByLen, CustomPrefixes, Sanitize;
    RowsGain(s.rows, e.guild, Sanitize(e.raw, c.white).text);
  }

  lemma CopiesOnAdd(c: Config, s: State, e: Event, p: string)
    requires e.Add? && Answer(c, s, e).Done? && Faithful(s, e)
    ensures var list := CustomPrefixes(s, e.guild, e.listing);
            CopiesOf(Next(c, s, e), e.guild, p) ==
              if p == Sanitize(e.raw, c.white).text then 1
              else if e.guild in s.cache then CopiesOf(s, e.guild, p)
              else if p in RowsOf(s.rows, e.guild) then 1 else 0
    ensures Sanitize(e.raw, c.white).text !in CustomPrefixes(s, e.guild, e.listing)
  {
    var g, list, q := e.guild, CustomPrefixes(s, e.guild, e.listing), Sanitize(e.raw, c.white).text;
    AddIs(c, s, e);
    CurrentListed(c, s, g, e.listing, p);
    hide Next, Answer, RowsOf, SortByLen, CustomPrefixes, Sanitize, Lists;
    PushListed(list, q, p);
    SortedListed(list + [q], p);
    assert q !in list ==> Listed(list, q) == 0;
    hide Listed;
  }

  lemma AddCopies(c: Config, s: State, e: Event, p: string)
    requires Inv(c, s) && Faithful(s, e) && e.Add?
    ensures CopiesOf(Next(c, s, e), e.guild, p) == Expected(c, s, e, e.guild, p, CopiesOf(s, e.guild, p))
  {
    var g := e.guild;
    assert Lists(e.listing, RowsOf(s.rows, g));
    hide *;
    if Answer(c, s, e).Done? {
      CopiesOnAdd(c, s, e, p);
      ExpectedOnAdd(c, s, e, p, CopiesOf(s, g, p));
      NotStoredNotListed(c, s, g, p);
      ListedIsStored(c, s, g, e.listing, p);
    } else {
      RefusedIs(c, s, e);
      Unchanged(c, s, e, g, p);
    }
  }

  lemma ListedIsStored(c: Config, s: State, g: Guild, listing: seq<string>, p: string)
    requires Inv(c, s) && Lists(listing, RowsOf(s.rows, g))
    ensures p in CustomPrefixes(s, g, listing) <==> p in RowsOf(s.rows, g)
  {
    CurrentIsRows(c, s, g, listing);
    hide Inv, RowsOf, Lists, CustomPrefixes, Ascending;
    assert p in CustomPrefixes(s, g, listing) <==> p in SetOf(CustomPrefixes(s, g, listing));
  }

  lemma RemoveCopies(c: Config, s: State, e: Event, p: string)
    requires Inv(c, s) && Faithful(s, e) && e.Remove?
    ensures CopiesOf(Next(c, s, e), e.guild, p) == Expected(c, s, e, e.guild, p, CopiesOf(s, e.guild, p))
  {
    var g := e.guild;
    CurrentListed(c, s, g, e.listing, p);
    hide Next, Answer, RowsOf, CustomPrefixes, Lists, Sanitize, Inv, Listed;
    if Answer(c, s, e).Done? {
      var list, q := CustomPrefixes(s, g, e.listing), Sanitize(e.raw, c.white).text;
      RemoveIs(c, s, e);
      WithoutCopies(list, q, p);
      RowsLose(s.rows, g, q);
      NotStoredNotListed(c, s, g, p);
    } else {
      RefusedIs(c, s, e);
      Unchanged(c, s, e, g, p);
    }
  }

  lemma GuildCreateCopies(c: Config, s: State, e: Event, p: string)
    requires Inv(c, s) && Faithful(s, e) && e.GuildCreate?
    ensures CopiesOf(Next(c, s, e), e.guild, p) == Expected(c, s, e, e.guild, p, CopiesOf(s, e.guild, p))
  {
    var g := e.guild;
    NotStoredNotListed(c, s, g, p);
    if g !in s.cache {
      CurrentListed(c, s, g, e.listing, p);
      CurrentIsRows(c, s, g, e.listing);
      var list := SortByLen(e.listing);
      assert list == [] ==> RowsOf(s.rows, g) == {} by { if list == [] { assert SetOf(list) == {}; } }
      RowsGain(s.rows, g, c.default);
      hide Inv, RowsOf, SortByLen, Lists, Ascending;
    }
  }

  lemma PutCopies(c: Config, s: State, e: Event, p: string)
    requires Inv(c, s) && e.Put?
    ensures CopiesOf(Next(c, s, e), e.guild, p) == Expected(c, s, e, e.guild, p, CopiesOf(s, e.guild, p))
  {
    var g := e.guild;
    NotStoredNotListed(c, s, g, p);
    hide Inv, RowsOf, SortByLen, CleanAll;
    if Answer(c, s, e).Done? {
      var clean := CleanAll(e.raws, [], c.white).texts;
      assert SetOf<string>([]) == {};
      CleanAllSettles(e.raws, [], c.white);
      DistinctOnce(clean, p);
      SortedListed(clean, p);
      RowsPut(s.rows, g, clean);
      hide Listed;
    }
  }

  lemma ClearCopies(c: Config, s: State, e: Event, p: string)
    requires e.Reset? || e.GuildDelete?
    ensures CopiesOf(Next(c, s, e), e.guild, p) == Expected(c, s, e, e.guild, p, CopiesOf(s, e.guild, p))
  {
    assert p !in RowsOf(DropGuild(s.rows, e.guild), e.guild);
  }

  lemma ElsewhereCopies(c: Config, s: State, e: Event, g: Guild, p: string)
    requires Inv(c, s) && !e.Ready? && e.guild != g
    ensures CopiesOf(Next(c, s, e), g, p) == Expected(c, s, e, g, p, CopiesOf(s, g, p))
  {
    EventsAreLocal(c, s, e, g);
    NotStoredNotListed(c, s, g, p);
    hide Next, Inv, RowsOf, Cached, Answer;
  }

  lemma StepCopies(c: Config, s: State, e: Event, g: Guild, p: string)
    requires Inv(c, s) && Faithful(s, e)
    ensures CopiesOf(Next(c, s, e), g, p) == Expected(c, s, e, g, p, CopiesOf(s, g, p))
  {
    hide Inv, Faithful, Next, CopiesOf, Expected;
    if e.Ready? {
      ReadyCopies(c, s, e, g, p);
    } else if e.guild != g {
      ElsewhereCopies(c, s, e, g, p);
    } else {
      match e
      case GuildCreate(_, _) => GuildCreateCopies(c, s, e, p);
      case GuildDelete(_) => ClearCopies(c, s, e, p);
      case Reset(_) => ClearCopies(c, s, e, p);
      case Add(_, _, _) => AddCopies(c, s, e, p);
      case Remove(_, _, _) => RemoveCopies(c, s, e, p);
      case Put(_, _) => PutCopies(c, s, e, p);
    }
  }

  // ---- runs ---------------------------------------------------------------

  /** Over any run, every prefix is listed exactly as often as the events say. */
  lemma {:induction false} ReconnectsPile(c: Config, s: State, events: seq<Event>, g: Guild, p: string)
    requires Inv(c, s) && FaithfulRun(c, s, events)
    ensures CopiesOf(Run(c, s, events), g, p) == ExpectedAfter(c, s, events, g, p, CopiesOf(s, g, p))
    decreases |events|
  {
    hide Inv, Faithful, Next, CopiesOf, Expected;
    if events != [] {
      StepKeepsInv(c, s, events[0]);
      StepCopies(c, s, events[0], g, p);
      ReconnectsPile(c, Next(c, s, events[0]), events[1..], g, p);
    }
  }

  function Readies(events: seq<Event>): nat {
    if events == [] then 0 else (if events[0].Ready? then 1 else 0) + Readies(events[1..])
  }

  /** `p` stays stored, and the list of `g` is not made anew. */
  predicate Kept(c: Config, s: State, events: seq<Event>, g: Guild, p: string)
    decreases |events|
  {
    p in RowsOf(s.rows, g) &&
    (events != [] ==>
       (events[0].Ready? || !Relists(c, s, events[0], g)) && Kept(c, Next(c, s, events[0]), events[1..], g, p))
  }

  /** As long as a prefix is kept, it is listed once more per delivery of `ready`. */
  lemma {:induction false} KeptPilesUp(c: Config, s: State, events: seq<Event>, g: Guild, p: string, k: nat)
    requires Kept(c, s, events, g, p)
    ensures ExpectedAfter(c, s, events, g, p, k) == k + Readies(events)
    decreases |events|
  {
    if events != [] {
      hide Next, Relists;
      var e := events[0];
      KeptPilesUp(c, Next(c, s, e), events[1..], g, p, if e.Ready? then k + 1 else k);
      assert p in RowsOf(Next(c, s, e).rows, g);
      hide RowsOf;
    }
  }

  // ---- the limit ----------------------------------------------------------

  function SumListed(list: seq<string>, listing: seq<string>): nat {
    if listing == [] then 0 else Listed(list, listing[0]) + SumListed(list, listing[1..])
  }

  lemma {:induction false} SumWithout(list: seq<string>, q: string, listing: seq<string>)
    requires q !in listing
    ensures SumListed(Without(list, q), listing) == SumListed(list, listing)
  {
    if listing != [] {
      HeadAndTail(listing);
      WithoutCopies(list, q, listing[0]);
      SumWithout(list, q, listing[1..]);
    }
  }

  lemma NoElements(list: seq<string>)
    requires SetOf(list) == {}
    ensures list == []
  {
    if list != [] {
      SetOfHead(list);
    }
  }

  lemma {:induction false} SumIsLength(list: seq<string>, listing: seq<string>)
    requires Lists(listing, SetOf(list))
    ensures SumListed(list, listing) == |list|
    decreases |listing|
  {
    if listing == [] {
      NoElements(list);
    } else {
      var q := listing[0];
      SetOfWithout(list, q);
      ListsAll(listing[1..], SetOf(list) - {q});
      assert q !in listing[1..] by { assert q in SetOf(listing[1..]) <==> q in listing[1..]; }
      SumIsLength(Without(list, q), listing[1..]);
      SumWithout(list, q, listing[1..]);
      WithoutLength(list, q);
    }
  }

  /** How often the stored prefixes are listed after a run, all together. */
  function ExpectedTotal(c: Config, s: State, events: seq<Event>, g: Guild, listing: seq<string>): nat {
    if listing == [] then 0
    else ExpectedAfter(c, s, events, g, listing[0], CopiesOf(s, g, listing[0]))
         + ExpectedTotal(c, s, events, g, listing[1..])
  }

  lemma {:induction false} TotalIsSum(c: Config, s: State, events: seq<Event>, g: Guild, listing: seq<string>)
    requires Inv(c, s) && FaithfulRun(c, s, events)
    ensures ExpectedTotal(c, s, events, g, listing) == SumListed(Cached(Run(c, s, events).cache, g), listing)
  {
    hide Inv, FaithfulRun, Run, ExpectedAfter, Cached;
    if listing != [] {
      ReconnectsPile(c, s, events, g, listing[0]);
      TotalIsSum(c, s, events, g, listing[1..]);
    }
  }

  /** The limit of 15 counts copies: after any run whatever, a new, well formed prefix is
      refused for want of room exactly when the copies of the stored prefixes, or the stored
      prefixes themselves for a guild not cached, come to 15. */
  lemma AddIsFullIff(c: Config, s: State, events: seq<Event>, g: Guild, raw: string, listing: seq<string>)
    requires Inv(c, s) && FaithfulRun(c, s, events)
    requires Lists(listing, RowsOf(Run(c, s, events).rows, g))
    requires Sanitize(raw, c.white).Ok?
    requires Sanitize(raw, c.white).text !in RowsOf(Run(c, s, events).rows, g)
    ensures var t := Run(c, s, events);
            Answer(c, t, Add(g, raw, listing)) == Refused(Full) <==>
              (if g in t.cache then ExpectedTotal(c, s, events, g, listing) else |listing|) >= MAX_PREFIXES
  {
    var t := Run(c, s, events);
    RunKeepsInv(c, s, events);
    TotalIsSum(c, s, events, g, listing);
    CurrentIsRows(c, t, g, listing);
    var list := CustomPrefixes(t, g, listing);
    assert Sanitize(raw, c.white).text !in list by {
      assert Sanitize(raw, c.white).text !in SetOf(list);
    }
    hide Run, Inv, FaithfulRun, ExpectedTotal, RowsOf, Sanitize, SumListed, Lists;
    if g in t.cache {
      SumIsLength(list, listing);
    } else {
      SortKeepsSet(listing);
    }
  }

  function ManyReadies(n: nat, all: seq<Row>): (events: seq<Event>)
    ensures |events| == n
  {
    if n == 0 then [] else [Ready(all)] + ManyReadies(n - 1, all)
  }

  lemma OneListed<T>(x: T)
    ensures Lists([x], {x})
  {
    assert [x][1..] == [] && {x} - {x} == {};
    assert Lists([x][1..], {x} - {x});
  }

  lemma {:induction false} ReadiesAlone(c: Config, s: State, n: nat, r: Row)
    requires s.rows == {r}
    ensures var events := ManyReadies(n, [r]);
            && FaithfulRun(c, s, events) && Run(c, s, events).rows == {r}
            && Kept(c, s, events, r.guild, r.prefix) && Readies(events) == n
    decreases n
  {
    StoredIffRow(s.rows, r.guild, r.prefix);
    if n > 0 {
      var events := ManyReadies(n, [r]);
      assert events[1..] == ManyReadies(n - 1, [r]);
      OneListed(r);
      assert Faithful(s, Ready([r]));
      ReadiesAlone(c, Next(c, s, Ready([r])), n - 1, r);
      hide RowsOf, PushAll, SortAll;
    }
  }

  /** The input: one stored prefix, `ready` delivered 15 times, and the second is refused. */
  lemma ReconnectsFill(c: Config)
    requires c.default == "a" && !c.white('b')
    ensures var s := State({Row(1, "a")}, map[]);
            var events := ManyReadies(15, [Row(1, "a")]);
            && Inv(c, s) && FaithfulRun(c, s, events) && Run(c, s, events).rows == {Row(1, "a")}
            && Answer(c, Run(c, s, events), Add(1, "b", ["a"])) == Refused(Full)
  {
    var s, r := State({Row(1, "a")}, map[]), Row(1, "a");
    var events := ManyReadies(15, [r]);
    ReadiesAlone(c, s, 15, r);
    OnePrefix(c);
    SanitizeBare("b", c.white);
    KeptPilesUp(c, s, events, 1, "a", CopiesOf(s, 1, "a"));
    RunKeepsInv(c, s, events);
    assert GotReady(events) by { assert events[0].Ready?; }
    hide Inv, Run, FaithfulRun, Sanitize, RowsOf, ExpectedAfter, Kept, ManyReadies;
    assert ExpectedTotal(c, s, events, 1, ["a"]) == 15 by { assert ["a"][1..] == []; }
    AddIsFullIff(c, s, events, 1, "b", ["a"]);
  }

  lemma OneRow(g: Guild)
    ensures RowsOf({Row(1, "a")}, g) == if g == 1 then {"a"} else {}
  {
    forall p ensures p in RowsOf({Row(1, "a")}, g) <==> g == 1 && p == "a" {
      StoredIffRow({Row(1, "a")}, g, p);
      assert Row(g, p) in {Row(1, "a")} <==> Row(g, p) == Row(1, "a");
    }
  }

  lemma OnePrefix(c: Config)
    requires c.default == "a"
    ensures Inv(c, State({Row(1, "a")}, map[]))
    ensures RowsOf({Row(1, "a")}, 1) == {"a"} && Lists(["a"], {"a"}) && "b" !in {"a"}
    ensures CopiesOf(State({Row(1, "a")}, map[]), 1, "a") == 0
  {
    OneListed("a");
    OneRow(1);
    forall g: Guild ensures |RowsOf({Row(1, "a")}, g)| <= MAX_PREFIXES {
      OneRow(g);
    }
  }
}
