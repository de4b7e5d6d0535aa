/** Custom prefixes: the table, the cache that dispatch reads, and the longest match. */
module Prefixes {
  import opened Base

  const MAX_PREFIXES := 15
  const MAX_PREFIX_LEN := 25

  type Guild = nat
  datatype Row = Row(guild: Guild, prefix: string)
  datatype Error = Separator | Blank | TooLong | Present | Missing | Full
  datatype Clean = Ok(text: string) | Bad(error: Error)
  datatype CleanList = Texts(texts: seq<string>) | BadText(error: Error)
  datatype Reply = Done | Refused(error: Error)

  /** The bot-wide prefix, and which characters count as white space. */
  datatype Config = Config(default: string, white: char -> bool)

  // ---- sanitizing ---------------------------------------------------------

  predicate HasSeparator(s: string) {
    |s| >= 3 && (s[..3] == ":|:" || HasSeparator(s[1..]))
  }

  function Sanitize(raw: string, white: char -> bool): Clean {
    if HasSeparator(raw) then Bad(Separator)
    else
      var clean := TrimEnd(TrimStart(raw, white), white);
      if clean == "" then Bad(Blank)
      else if |clean| > MAX_PREFIX_LEN then Bad(TooLong)
      else Ok(clean)
  }

  predicate AllWhite(s: string, white: char -> bool) {
    forall c :: c in s ==> white(c)
  }

  predicate Bare(s: string, white: char -> bool) {
    s != "" ==> !white(s[0]) && !white(s[|s| - 1])
  }

  lemma {:induction false} TrimStartDrops(s: string, white: char -> bool) returns (n: nat)
    ensures n <= |s| && TrimStart(s, white) == s[n..] && AllWhite(s[..n], white)
    ensures n < |s| ==> !white(s[n])
    ensures HasSeparator(s[n..]) ==> HasSeparator(s)
  {
    n := 0;
    if s != "" && white(s[0]) {
      var m := TrimStartDrops(s[1..], white);
      n := m + 1;
      assert s[1..][m..] == s[n..];
      assert s[..n] == [s[0]] + s[1..][..m];
    }
  }

  lemma {:induction false} SeparatorInFront(s: string, n: nat)
    requires n <= |s| && HasSeparator(s[..n])
    ensures HasSeparator(s)
  {
    if s[..n][..3] == ":|:" {
      assert s[..3] == s[..n][..3];
    } else {
      assert s[..n][1..] == s[1..][..n - 1];
      SeparatorInFront(s[1..], n - 1);
    }
  }

  lemma {:induction false} TrimEndDrops(s: string, white: char -> bool) returns (n: nat)
    ensures n <= |s| && TrimEnd(s, white) == s[..n] && AllWhite(s[n..], white)
    ensures n > 0 ==> !white(s[n - 1])
  {
    n := |s|;
    if s != "" && white(s[n - 1]) {
      n := TrimEndDrops(s[..|s| - 1], white);
      assert s[..|s| - 1][..n] == s[..n];
      assert s[n..] == s[..|s| - 1][n..] + [s[|s| - 1]];
    }
  }

  /** What sanitizing keeps of a raw prefix. */
  ghost predicate IsCore(raw: string, before: string, text: string, after: string, white: char -> bool) {
    raw == before + text + after && AllWhite(before, white) && AllWhite(after, white) && Bare(text, white)
  }

  lemma SanitizeBare(text: string, white: char -> bool)
    requires Bare(text, white) && !HasSeparator(text) && 1 <= |text| <= MAX_PREFIX_LEN
    ensures Sanitize(text, white) == Ok(text)
  {
    hide HasSeparator;
  }

  /** A raw prefix is its core between white space; it is accepted exactly when it is free
      of the separator and its core has 1 to 25 characters; and what is accepted is the
      core, which sanitizing again leaves alone. */
  lemma SanitizeKeepsCore(raw: string, white: char -> bool) returns (before: string, text: string, after: string)
    ensures IsCore(raw, before, text, after, white)
    ensures Sanitize(raw, white).Ok? <==> !HasSeparator(raw) && 1 <= |text| <= MAX_PREFIX_LEN
    ensures Sanitize(raw, white).Ok? ==> Sanitize(raw, white).text == text && Sanitize(text, white) == Ok(text)
  {
    hide *;
    var n := TrimStartDrops(raw, white);
    var m := TrimEndDrops(raw[n..], white);
    before, text, after := raw[..n], raw[n..][..m], raw[n..][m..];
    CoreIs(raw, n, m, white);
    SanitizeIs(raw, white);
    if HasSeparator(text) {
      SeparatorInFront(raw[n..], m);
    } else if 1 <= |text| <= MAX_PREFIX_LEN {
      SanitizeBare(text, white);
    }
  }

  lemma CoreIs(raw: string, n: nat, m: nat, white: char -> bool)
    requires n <= |raw| && m <= |raw| - n
    requires AllWhite(raw[..n], white) && AllWhite(raw[n..][m..], white)
    requires (n < |raw| ==> !white(raw[n])) && (m > 0 ==> !white(raw[n..][m - 1]))
    ensures IsCore(raw, raw[..n], raw[n..][..m], raw[n..][m..], white) && Bare(raw[n..][..m], white)
  {
    hide AllWhite;
    var text := raw[n..][..m];
    assert text + raw[n..][m..] == raw[n..];
    assert raw == raw[..n] + text + raw[n..][m..];
    assert m > 0 ==> text[0] == raw[n] && text[|text| - 1] == raw[n..][m - 1];
  }

  lemma SanitizeIs(raw: string, white: char -> bool)
    ensures var clean := TrimEnd(TrimStart(raw, white), white);
            && (Sanitize(raw, white).Ok? <==> !HasSeparator(raw) && 1 <= |clean| <= MAX_PREFIX_LEN)
            && (Sanitize(raw, white).Ok? ==> Sanitize(raw, white).text == clean)
  {
    hide TrimStart, TrimEnd, HasSeparator;
  }

  // ---- lists --------------------------------------------------------------

  function SetOf<T>(s: seq<T>): set<T> {
    set x | x in s
  }

  /** `listing` gives the elements of `all`, each once, in some order. */
  ghost predicate Lists<T>(listing: seq<T>, all: set<T>) {
    if listing == [] then all == {}
    else listing[0] in all && Lists(listing[1..], all - {listing[0]})
  }

  lemma {:induction false} ListsAll<T>(listing: seq<T>, all: set<T>)
    requires Lists(listing, all)
    ensures SetOf(listing) == all && |listing| == |all|
  {
    if listing != [] {
      ListsAll(listing[1..], all - {listing[0]});
      HeadAndTail(listing);
      assert SetOf(listing) == {listing[0]} + SetOf(listing[1..]);
    }
  }

  /** The distinct elements of a list are no more than its length. */
  lemma {:induction false} SetOfIsSmaller<T>(s: seq<T>)
    ensures |SetOf(s)| <= |s|
  {
    if s == [] {
      assert SetOf(s) == {};
    } else {
      SetOfIsSmaller(s[1..]);
      HeadAndTail(s);
      assert SetOf(s) == {s[0]} + SetOf(s[1..]);
    }
  }

  ghost predicate Ascending(s: seq<string>) {
    s == [] || ((forall x :: x in s[1..] ==> ByteLen(s[0]) <= ByteLen(x)) && Ascending(s[1..]))
  }

  function Insert(p: string, s: seq<string>): (r: seq<string>)
    ensures multiset(r) == multiset(s) + multiset{p}
    ensures Ascending(s) ==> Ascending(r)
  {
    if s == [] || ByteLen(p) <= ByteLen(s[0]) then
      assert s != [] ==> [s[0]] + s[1..] == s;
      [p] + s
    else
      var r := [s[0]] + Insert(p, s[1..]);
      assert [s[0]] + s[1..] == s;
      assert forall x :: x in r[1..] ==> x in multiset(Insert(p, s[1..]));
      r
  }

  /** A stable sort by length in bytes. */
  function SortByLen(s: seq<string>): (r: seq<string>)
    ensures Ascending(r) && multiset(r) == multiset(s)
  {
    if s == [] then []
    else
      assert [s[0]] + s[1..] == s;
      Insert(s[0], SortByLen(s[1..]))
  }

  lemma SortKeepsSet(s: seq<string>)
    ensures SetOf(SortByLen(s)) == SetOf(s) && |SortByLen(s)| == |s|
  {
    var r := SortByLen(s);
    assert |multiset(r)| == |multiset(s)|;
    forall x ensures x in r <==> x in s {
      assert x in multiset(r) <==> x in multiset(s);
    }
  }

  function Only(p: string, n: nat): seq<string> {
    if ByteLen(p) == n then [p] else []
  }

  function OfLength(s: seq<string>, n: nat): seq<string> {
    if s == [] then [] else Only(s[0], n) + OfLength(s[1..], n)
  }

  lemma OfLengthHead(x: string, rest: seq<string>, n: nat)
    ensures OfLength([x] + rest, n) == Only(x, n) + OfLength(rest, n)
  {
    assert ([x] + rest)[1..] == rest;
  }

  lemma InsertHead(p: string, s: seq<string>)
    ensures s == [] ==> Insert(p, s) == [p] + []
    ensures s != [] ==> Insert(p, s) == if ByteLen(p) <= ByteLen(s[0]) then [p] + s else [s[0]] + Insert(p, s[1..])
  {
    hide Ascending;
  }

  lemma Commute(p: string, q: string, n: nat, rest: seq<string>)
    requires ByteLen(p) != ByteLen(q)
    ensures Only(p, n) + (Only(q, n) + rest) == Only(q, n) + (Only(p, n) + rest)
  {
  }

  lemma {:induction false} InsertIsStable(p: string, s: seq<string>, n: nat)
    ensures OfLength(Insert(p, s), n) == Only(p, n) + OfLength(s, n)
  {
    hide *;
    InsertHead(p, s);
    if s == [] || ByteLen(p) <= ByteLen(s[0]) {
      OfLengthHead(p, s, n);
    } else {
      HeadAndTail(s);
      OfLengthHead(s[0], s[1..], n);
      InsertIsStable(p, s[1..], n);
      OfLengthHead(s[0], Insert(p, s[1..]), n);
      Commute(p, s[0], n, OfLength(s[1..], n));
    }
  }

  /** Prefixes of one length stay in the order they were in. */
  lemma {:induction false} SortIsStable(s: seq<string>, n: nat)
    ensures OfLength(SortByLen(s), n) == OfLength(s, n)
  {
    if s != [] {
      SortIsStable(s[1..], n);
      InsertIsStable(s[0], SortByLen(s[1..]), n);
    }
  }

  lemma {:induction false} WithoutAscends(s: seq<string>, p: string)
    requires Ascending(s)
    ensures Ascending(Without(s, p))
  {
    if s != [] {
      WithoutAscends(s[1..], p);
      var rest := Without(s[1..], p);
      assert ([s[0]] + rest)[1..] == rest;
      assert [] + rest == rest;
    }
  }

  // ---- the table and the cache --------------------------------------------

  datatype State = State(rows: set<Row>, cache: map<Guild, seq<string>>)

  function RowsOf(rows: set<Row>, g: Guild): set<string> {
    set r | r in rows && r.guild == g :: r.prefix
  }

  function DropGuild(rows: set<Row>, g: Guild): set<Row> {
    set r | r in rows && r.guild != g
  }

  /** Everything that writes the table or the cache. A `listing` is the order in which the
      database answers. */
  datatype Event =
    | Ready(all: seq<Row>)
    | GuildCreate(guild: Guild, listing: seq<string>)
    | GuildDelete(guild: Guild)
    | Add(guild: Guild, raw: string, listing: seq<string>)
    | Remove(guild: Guild, raw: string, listing: seq<string>)
    | Reset(guild: Guild)
    | Put(guild: Guild, raws: seq<string>)

  ghost predicate Faithful(s: State, e: Event) {
    match e
    case Ready(all) => Lists(all, s.rows)
    case GuildCreate(g, listing) => Lists(listing, RowsOf(s.rows, g))
    case Add(g, _, listing) => Lists(listing, RowsOf(s.rows, g))
    case Remove(g, _, listing) => Lists(listing, RowsOf(s.rows, g))
    case _ => true
  }

  /** Cache first, then the table. */
  function CustomPrefixes(s: State, g: Guild, listing: seq<string>): seq<string> {
    if g in s.cache then s.cache[g] else SortByLen(listing)
  }

  function Cached(cache: map<Guild, seq<string>>, g: Guild): seq<string> {
    if g in cache then cache[g] else []
  }

  function PushAll(cache: map<Guild, seq<string>>, all: seq<Row>): map<Guild, seq<string>>
    decreases |all|
  {
    if all == [] then cache
    else PushAll(cache[all[0].guild := Cached(cache, all[0].guild) + [all[0].prefix]], all[1..])
  }

  function SortAll(cache: map<Guild, seq<string>>): map<Guild, seq<string>> {
    map g | g in cache :: SortByLen(cache[g])
  }

  function CleanAll(raws: seq<string>, clean: seq<string>, white: char -> bool): CleanList
    decreases |raws|
  {
    if raws == [] then Texts(clean)
    else
      match Sanitize(raws[0], white)
      case Bad(e) => BadText(e)
      case Ok(p) => CleanAll(raws[1..], if p in clean then clean else clean + [p], white)
  }

  function Answer(c: Config, s: State, e: Event): Reply {
    match e
    case Add(g, raw, listing) =>
      var list := CustomPrefixes(s, g, listing);
      (match Sanitize(raw, c.white)
       case Bad(error) => Refused(error)
       case Ok(p) => if p in list then Refused(Present) else if |list| >= MAX_PREFIXES then Refused(Full) else Done)
    case Remove(g, raw, listing) =>
      (match Sanitize(raw, c.white)
       case Bad(error) => Refused(error)
       case Ok(p) => if p in CustomPrefixes(s, g, listing) then Done else Refused(Missing))
    case Put(g, raws) =>
      (match CleanAll(raws, [], c.white)
       case BadText(error) => Refused(error)
       case Texts(clean) => if |clean| > MAX_PREFIXES then Refused(Full) else Done)
    case _ => Done
  }

  function Next(c: Config, s: State, e: Event): State {
    if Answer(c, s, e).Refused? then s else
    match e
    case Ready(all) => s.(cache := SortAll(PushAll(s.cache, all)))
    case GuildCreate(g, listing) =>
      var list := SortByLen(listing);
      if g in s.cache then s
      else if list == [] then State(s.rows + {Row(g, c.default)}, s.cache[g := [c.default]])
      else s.(cache := s.cache[g := list])
    case GuildDelete(g) => State(DropGuild(s.rows, g), s.cache - {g})
    case Reset(g) => State(DropGuild(s.rows, g), s.cache - {g})
    case Add(g, raw, listing) =>
      var p := Sanitize(raw, c.white).text;
      State(s.rows + {Row(g, p)}, s.cache[g := SortByLen(CustomPrefixes(s, g, listing) + [p])])
    case Remove(g, raw, listing) =>
      var p := Sanitize(raw, c.white).text;
      State(s.rows - {Row(g, p)}, s.cache[g := Without(CustomPrefixes(s, g, listing), p)])
    case Put(g, raws) =>
      var clean := CleanAll(raws, [], c.white).texts;
      var rows := DropGuild(s.rows, g) + set p | p in clean :: Row(g, p);
      State(rows, if clean == [] then s.cache - {g} else s.cache[g := SortByLen(clean)])
  }

  ghost predicate Inv(c: Config, s: State) {
    && (forall g | g in s.cache :: SetOf(s.cache[g]) == RowsOf(s.rows, g) && Ascending(s.cache[g]))
    && (forall g: Guild :: |RowsOf(s.rows, g)| <= MAX_PREFIXES)
    && (forall r | r in s.rows :: r.prefix == c.default || Sanitize(r.prefix, c.white) == Ok(r.prefix))
  }

  /** Every guild with rows is cached. */
  ghost predicate Warm(s: State) {
    forall r | r in s.rows :: r.guild in s.cache
  }

  // ---- what one event keeps -----------------------------------------------

  /** Only guild `g` changed, to the prefixes `set now`. */
  lemma ChangeOneGuild(c: Config, s: State, t: State, g: Guild, now: set<string>)
    requires Inv(c, s)
    requires forall r: Row | r.guild != g :: r in t.rows <==> r in s.rows
    requires RowsOf(t.rows, g) == now && |now| <= MAX_PREFIXES
    requires forall p | p in now :: p == c.default || Sanitize(p, c.white) == Ok(p)
    requires t.cache - {g} == s.cache - {g}
    requires g in t.cache ==> SetOf(t.cache[g]) == now && Ascending(t.cache[g])
    ensures Inv(c, t)
    ensures Warm(s) && (g in t.cache || now == {}) ==> Warm(t)
  {
    hide Ascending, Sanitize, SetOf;
    forall h: Guild ensures h != g ==> RowsOf(t.rows, h) == RowsOf(s.rows, h) {
    }
    forall h | h != g ensures h in t.cache <==> h in s.cache
                      ensures h in s.cache ==> t.cache[h] == s.cache[h] {
      assert h in t.cache - {g} <==> h in s.cache - {g};
      if h in s.cache - {g} {
        assert (t.cache - {g})[h] == (s.cache - {g})[h];
      }
    }
    forall r | r in t.rows ensures r.prefix == c.default || Sanitize(r.prefix, c.white) == Ok(r.prefix)
                           ensures Warm(s) && (g in t.cache || now == {}) ==> r.guild in t.cache {
      if r.guild == g {
        assert r.prefix in RowsOf(t.rows, g);
      }
    }
  }

  lemma CurrentIsRows(c: Config, s: State, g: Guild, listing: seq<string>)
    requires Inv(c, s) && Lists(listing, RowsOf(s.rows, g))
    ensures SetOf(CustomPrefixes(s, g, listing)) == RowsOf(s.rows, g)
    ensures Ascending(CustomPrefixes(s, g, listing))
  {
    ListsAll(listing, RowsOf(s.rows, g));
    SortKeepsSet(listing);
  }

  lemma RowsAreClean(c: Config, s: State, g: Guild)
    requires Inv(c, s)
    ensures forall p | p in RowsOf(s.rows, g) :: p == c.default || Sanitize(p, c.white) == Ok(p)
  {
  }

  lemma SetOfPush<T>(s: seq<T>, x: T)
    ensures SetOf(s + [x]) == SetOf(s) + {x}
  {
  }

  lemma ElsewhereKept(cache: map<Guild, seq<string>>, g: Guild, list: seq<string>)
    ensures cache[g := list] - {g} == cache - {g}
    ensures cache - {g} - {g} == cache - {g}
  {
  }

  lemma AddedKeepsInv(c: Config, s: State, g: Guild, p: string, list: seq<string>)
    requires Inv(c, s) && SetOf(list) == RowsOf(s.rows, g) && |list| < MAX_PREFIXES
    requires p == c.default || Sanitize(p, c.white) == Ok(p)
    ensures var t := State(s.rows + {Row(g, p)}, s.cache[g := SortByLen(list + [p])]);
            Inv(c, t) && (Warm(s) ==> Warm(t))
  {
    SetOfIsSmaller(list);
    SortKeepsSet(list + [p]);
    SetOfPush(list, p);
    RowsGain(s.rows, g, p);
    RowsAreClean(c, s, g);
    ElsewhereKept(s.cache, g, SortByLen(list + [p]));
    hide *;
    ChangeOneGuild(c, s, State(s.rows + {Row(g, p)}, s.cache[g := SortByLen(list + [p])]), g, RowsOf(s.rows, g) + {p});
  }

  lemma AddIs(c: Config, s: State, e: Event)
    requires e.Add? && Answer(c, s, e).Done?
    ensures var g, list, q := e.guild, CustomPrefixes(s, e.guild, e.listing), Sanitize(e.raw, c.white).text;
            Next(c, s, e) == State(s.rows + {Row(g, q)}, s.cache[g := SortByLen(list + [q])]) && q !in list
  {
  }

  lemma RemoveIs(c: Config, s: State, e: Event)
    requires e.Remove? && Answer(c, s, e).Done?
    ensures var g, list, q := e.guild, CustomPrefixes(s, e.guild, e.listing), Sanitize(e.raw, c.white).text;
            Next(c, s, e) == State(s.rows - {Row(g, q)}, s.cache[g := Without(list, q)]) && q in list
  {
  }

  lemma RefusedIs(c: Config, s: State, e: Event)
    requires Answer(c, s, e).Refused?
    ensures Next(c, s, e) == s
  {
  }

  lemma AddKeepsInv(c: Config, s: State, e: Event)
    requires Inv(c, s) && Faithful(s, e) && e.Add?
    ensures Inv(c, Next(c, s, e)) && (Warm(s) ==> Warm(Next(c, s, e)))
  {
    CurrentIsRows(c, s, e.guild, e.listing);
    hide *;
    if Answer(c, s, e).Done? {
      AddIs(c, s, e);
      AddIsClean(c, s, e);
      AddedKeepsInv(c, s, e.guild, Sanitize(e.raw, c.white).text, CustomPrefixes(s, e.guild, e.listing));
    } else {
      RefusedIs(c, s, e);
    }
  }

  lemma AddIsClean(c: Config, s: State, e: Event)
    requires e.Add? && Answer(c, s, e).Done?
    ensures var p := Sanitize(e.raw, c.white).text; Sanitize(p, c.white) == Ok(p)
    ensures |CustomPrefixes(s, e.guild, e.listing)| < MAX_PREFIXES
  {
    var before, text, after := SanitizeKeepsCore(e.raw, c.white);
    hide Sanitize, CustomPrefixes;
  }

  lemma RowsGain(rows: set<Row>, g: Guild, p: string)
    ensures RowsOf(rows + {Row(g, p)}, g) == RowsOf(rows, g) + {p}
    ensures |RowsOf(rows, g) + {p}| <= |RowsOf(rows, g)| + 1
  {
    assert |{p}| == 1;
    var now := RowsOf(rows + {Row(g, p)}, g);
    assert Row(g, p) in rows + {Row(g, p)} && p in now;
    forall q ensures q in now <==> q in RowsOf(rows, g) + {p} {
      assert q in now <==> Row(g, q) in rows + {Row(g, p)};
    }
  }

  lemma RowsLose(rows: set<Row>, g: Guild, p: string)
    ensures RowsOf(rows - {Row(g, p)}, g) == RowsOf(rows, g) - {p}
  {
    var now := RowsOf(rows - {Row(g, p)}, g);
    forall q ensures q in now <==> q in RowsOf(rows, g) - {p} {
      assert q in now <==> Row(g, q) in rows - {Row(g, p)};
    }
  }

  lemma RemovedKeepsInv(c: Config, s: State, g: Guild, p: string, list: seq<string>)
    requires Inv(c, s) && SetOf(list) == RowsOf(s.rows, g) && Ascending(list)
    ensures var t := State(s.rows - {Row(g, p)}, s.cache[g := Without(list, p)]);
            Inv(c, t) && (Warm(s) ==> Warm(t))
  {
    WithoutAscends(list, p);
    SetOfWithout(list, p);
    RowsLose(s.rows, g, p);
    RowsAreClean(c, s, g);
    RowsAreFew(c, s, g, p);
    ElsewhereKept(s.cache, g, Without(list, p));
    hide *;
    ChangeOneGuild(c, s, State(s.rows - {Row(g, p)}, s.cache[g := Without(list, p)]), g, RowsOf(s.rows, g) - {p});
  }

  lemma SetOfWithout(s: seq<string>, p: string)
    ensures SetOf(Without(s, p)) == SetOf(s) - {p}
  {
  }

  lemma RowsAreFew(c: Config, s: State, g: Guild, p: string)
    requires Inv(c, s)
    ensures |RowsOf(s.rows, g)| <= MAX_PREFIXES && |RowsOf(s.rows, g) - {p}| <= MAX_PREFIXES
  {
  }

  lemma RemoveKeepsInv(c: Config, s: State, e: Event)
    requires Inv(c, s) && Faithful(s, e) && e.Remove?
    ensures Inv(c, Next(c, s, e)) && (Warm(s) ==> Warm(Next(c, s, e)))
  {
    CurrentIsRows(c, s, e.guild, e.listing);
    hide Inv, Warm, Lists, Sanitize, CustomPrefixes;
    if Answer(c, s, e).Done? {
      RemovedKeepsInv(c, s, e.guild, Sanitize(e.raw, c.white).text, CustomPrefixes(s, e.guild, e.listing));
    }
  }

  /** The table's list becomes the cached one. */
  lemma LoadedKeepsInv(c: Config, s: State, g: Guild, list: seq<string>)
    requires Inv(c, s) && SetOf(list) == RowsOf(s.rows, g) && Ascending(list)
    ensures Inv(c, s.(cache := s.cache[g := list])) && (Warm(s) ==> Warm(s.(cache := s.cache[g := list])))
  {
    RowsAreClean(c, s, g);
    RowsAreFew(c, s, g, "");
    ElsewhereKept(s.cache, g, list);
    hide *;
    ChangeOneGuild(c, s, s.(cache := s.cache[g := list]), g, RowsOf(s.rows, g));
  }

  lemma SortOne(p: string)
    ensures SortByLen([p]) == [p]
  {
    assert [p][1..] == [];
  }

  lemma GuildCreateKeepsInv(c: Config, s: State, e: Event)
    requires Inv(c, s) && Faithful(s, e) && e.GuildCreate?
    ensures Inv(c, Next(c, s, e)) && (Warm(s) ==> Warm(Next(c, s, e)))
  {
    var g := e.guild;
    CurrentIsRows(c, s, g, e.listing);
    hide Inv, Warm, Lists;
    if g !in s.cache {
      var list := SortByLen(e.listing);
      hide SortByLen, SetOf;
      if list == [] {
        AddedKeepsInv(c, s, g, c.default, list);
        SortOne(c.default);
        assert list + [c.default] == [c.default];
      } else {
        LoadedKeepsInv(c, s, g, list);
      }
    }
  }

  lemma ClearKeepsInv(c: Config, s: State, g: Guild)
    requires Inv(c, s)
    ensures var t := State(DropGuild(s.rows, g), s.cache - {g}); Inv(c, t) && (Warm(s) ==> Warm(t))
  {
    var t := State(DropGuild(s.rows, g), s.cache - {g});
    assert RowsOf(t.rows, g) == {};
    ElsewhereKept(s.cache, g, []);
    ChangeOneGuild(c, s, t, g, {});
  }

  /** The cleaned list: settled texts, no repeats. */
  ghost predicate Settled(clean: seq<string>, white: char -> bool) {
    && (forall p | p in clean :: Sanitize(p, white) == Ok(p))
    && |SetOf(clean)| == |clean|
  }

  lemma {:induction false} CleanAllSettles(raws: seq<string>, clean: seq<string>, white: char -> bool)
    requires Settled(clean, white)
    ensures CleanAll(raws, clean, white).Texts? ==> Settled(CleanAll(raws, clean, white).texts, white)
    decreases |raws|
  {
    if raws != [] && Sanitize(raws[0], white).Ok? {
      var p := Sanitize(raws[0], white).text;
      var before, text, after := SanitizeKeepsCore(raws[0], white);
      if p in clean {
        CleanAllSettles(raws[1..], clean, white);
      } else {
        assert SetOf(clean + [p]) == SetOf(clean) + {p};
        CleanAllSettles(raws[1..], clean + [p], white);
      }
    }
  }

  lemma RowsPut(rows: set<Row>, g: Guild, clean: seq<string>)
    ensures RowsOf(DropGuild(rows, g) + set p | p in clean :: Row(g, p), g) == SetOf(clean)
  {
    var now := DropGuild(rows, g) + set p | p in clean :: Row(g, p);
    forall q ensures q in RowsOf(now, g) <==> q in clean {
      assert q in RowsOf(now, g) <==> Row(g, q) in now;
    }
  }

  lemma PutKeepsRow(rows: set<Row>, g: Guild, clean: seq<string>, r: Row)
    requires r.guild != g
    ensures r in DropGuild(rows, g) + (set p | p in clean :: Row(g, p)) <==> r in rows
  {
  }

  lemma PutKeepsInv(c: Config, s: State, e: Event)
    requires Inv(c, s) && e.Put?
    ensures Inv(c, Next(c, s, e)) && (Warm(s) ==> Warm(Next(c, s, e)))
  {
    hide Inv, Warm, Lists, Sanitize, CleanAll;
    if Answer(c, s, e).Done? {
      var g, clean := e.guild, CleanAll(e.raws, [], c.white).texts;
      assert SetOf<string>([]) == {};
      CleanAllSettles(e.raws, [], c.white);
      SortKeepsSet(clean);
      RowsPut(s.rows, g, clean);
      forall r: Row | r.guild != g ensures r in Next(c, s, e).rows <==> r in s.rows {
        PutKeepsRow(s.rows, g, clean, r);
      }
      ElsewhereKept(s.cache, g, SortByLen(clean));
      var now := SetOf(clean);
      assert forall p :: p in now ==> p in clean;
      assert clean == [] ==> now == {};
      hide SetOf, RowsOf, DropGuild, SortByLen;
      ChangeOneGuild(c, s, Next(c, s, e), g, now);
    }
  }

  lemma CachedAfter(cache: map<Guild, seq<string>>, h: Guild, list: seq<string>, g: Guild)
    ensures Cached(cache[h := list], g) == if g == h then list else Cached(cache, g)
  {
  }

  lemma SetOfHead<T>(s: seq<T>)
    requires s != []
    ensures SetOf(s) == SetOf(s[1..]) + {s[0]}
  {
    HeadAndTail(s);
  }

  lemma PushOne(cache: map<Guild, seq<string>>, r: Row, g: Guild)
    ensures var next := cache[r.guild := Cached(cache, r.guild) + [r.prefix]];
            && SetOf(Cached(next, g)) == SetOf(Cached(cache, g)) + RowsOf({r}, g)
            && (g in next <==> g in cache || RowsOf({r}, g) != {})
  {
    SetOfPush(Cached(cache, r.guild), r.prefix);
    assert RowsOf({r}, g) == if r.guild == g then {r.prefix} else {};
  }

  lemma RowsUnion(a: set<Row>, b: set<Row>, g: Guild)
    ensures RowsOf(a + b, g) == RowsOf(a, g) + RowsOf(b, g)
  {
  }

  lemma {:induction false} PushAllAdds(cache: map<Guild, seq<string>>, all: seq<Row>, g: Guild)
    ensures SetOf(Cached(PushAll(cache, all), g)) == SetOf(Cached(cache, g)) + RowsOf(SetOf(all), g)
    ensures g in PushAll(cache, all) <==> g in cache || RowsOf(SetOf(all), g) != {}
    decreases |all|
  {
    if all == [] {
      assert RowsOf(SetOf(all), g) == {};
    } else {
      var next := cache[all[0].guild := Cached(cache, all[0].guild) + [all[0].prefix]];
      assert PushAll(cache, all) == PushAll(next, all[1..]);
      PushOne(cache, all[0], g);
      PushAllAdds(next, all[1..], g);
      SetOfHead(all);
      RowsUnion(SetOf(all[1..]), {all[0]}, g);
      hide *;
      assert RowsOf(SetOf(all), g) == RowsOf(SetOf(all[1..]), g) + RowsOf({all[0]}, g);
    }
  }

  lemma ReadyGuild(c: Config, s: State, all: seq<Row>, g: Guild)
    requires Inv(c, s) && Lists(all, s.rows)
    ensures var cache := SortAll(PushAll(s.cache, all));
            && (g in cache ==> SetOf(cache[g]) == RowsOf(s.rows, g) && Ascending(cache[g]))
            && (RowsOf(s.rows, g) != {} ==> g in cache)
  {
    var pushed := PushAll(s.cache, all);
    ListsAll(all, s.rows);
    PushAllAdds(s.cache, all, g);
    assert SetOf(Cached(s.cache, g)) <= RowsOf(s.rows, g) by { hide Ascending, PushAll; }
    hide RowsOf, Lists, PushAll, Inv;
    if g in pushed {
      SortKeepsSet(pushed[g]);
      hide SetOf;
    }
  }

  lemma ReadyKeepsInv(c: Config, s: State, e: Event)
    requires Inv(c, s) && Faithful(s, e) && e.Ready?
    ensures Inv(c, Next(c, s, e)) && Warm(Next(c, s, e))
  {
    var t := Next(c, s, e);
    hide SortAll, PushAll, Ascending, SetOf, Sanitize, Lists;
    forall g: Guild | g in t.cache ensures SetOf(t.cache[g]) == RowsOf(s.rows, g) && Ascending(t.cache[g]) {
      ReadyGuild(c, s, e.all, g);
    }
    forall r | r in s.rows ensures r.guild in t.cache {
      ReadyGuild(c, s, e.all, r.guild);
      assert r.prefix in RowsOf(s.rows, r.guild);
    }
  }

  /** Every writer keeps cache and table in agreement; a `ready` makes the cache complete. */
  lemma StepKeepsInv(c: Config, s: State, e: Event)
    requires Inv(c, s) && Faithful(s, e)
    ensures Inv(c, Next(c, s, e))
    ensures Warm(s) || e.Ready? ==> Warm(Next(c, s, e))
  {
    hide Inv, Warm, Faithful;
    match e
    case Ready(_) => ReadyKeepsInv(c, s, e);
    case GuildCreate(_, _) => GuildCreateKeepsInv(c, s, e);
    case GuildDelete(g) => ClearKeepsInv(c, s, g);
    case Reset(g) => ClearKeepsInv(c, s, g);
    case Add(_, _, _) => AddKeepsInv(c, s, e);
    case Remove(_, _, _) => RemoveKeepsInv(c, s, e);
    case Put(_, _) => PutKeepsInv(c, s, e);
  }

  // ---- runs ---------------------------------------------------------------

  function Run(c: Config, s: State, events: seq<Event>): State
    decreases |events|
  {
    if events == [] then s else Run(c, Next(c, s, events[0]), events[1..])
  }

  ghost predicate FaithfulRun(c: Config, s: State, events: seq<Event>)
    decreases |events|
  {
    events == [] || (Faithful(s, events[0]) && FaithfulRun(c, Next(c, s, events[0]), events[1..]))
  }

  predicate GotReady(events: seq<Event>) {
    events != [] && (events[0].Ready? || GotReady(events[1..]))
  }

  lemma {:induction false} RunKeepsInv(c: Config, s: State, events: seq<Event>)
    requires Inv(c, s) && FaithfulRun(c, s, events)
    ensures Inv(c, Run(c, s, events))
    ensures Warm(s) || GotReady(events) ==> Warm(Run(c, s, events))
    decreases |events|
  {
    hide Inv, Warm, Faithful, Next;
    if events != [] {
      StepKeepsInv(c, s, events[0]);
      RunKeepsInv(c, Next(c, s, events[0]), events[1..]);
    }
  }

  // ---- dispatch -----------------------------------------------------------

  /** The prefixes dispatch considers: the cached ones, or the default. */
  function GuildPrefixes(c: Config, s: State, g: Option<Guild>): seq<string> {
    if g.Some? && g.value in s.cache && s.cache[g.value] != [] then s.cache[g.value] else [c.default]
  }

  predicate Fits(p: string, content: string) {
    p != "" && p <= content
  }

  /** The greatest length in bytes among the prefixes that fit. */
  function Longest(prefixes: seq<string>, content: string): Option<nat> {
    if prefixes == [] then None
    else
      var rest := Longest(prefixes[1..], content);
      if !Fits(prefixes[0], content) then rest
      else if rest.Some? && rest.value > ByteLen(prefixes[0]) then rest
      else Some(ByteLen(prefixes[0]))
  }

  /** Splitting a text at a byte offset; None when the offset falls inside a character. */
  function SplitAt(content: string, bytes: nat): Option<(string, string)> {
    if bytes == 0 then Some(("", content))
    else if content == "" || bytes < Utf8Width(content[0]) then None
    else
      var rest := SplitAt(content[1..], bytes - Utf8Width(content[0]));
      if rest.None? then None else Some(([content[0]] + rest.value.0, rest.value.1))
  }

  function DynamicPrefix(c: Config, s: State, g: Option<Guild>, content: string): Option<(string, string)> {
    var best := Longest(GuildPrefixes(c, s, g), content);
    if best.None? then None else SplitAt(content, best.value)
  }

  lemma {:induction false} SplitAtBoundary(p: string, content: string)
    requires p <= content
    ensures SplitAt(content, ByteLen(p)) == Some((p, content[|p|..]))
  {
    if p != "" {
      assert content[..|p|] == p;
      assert p[0] == content[0] && p[1..] <= content[1..];
      SplitAtBoundary(p[1..], content[1..]);
      HeadAndTail(p);
      assert content[1..][|p| - 1..] == content[|p|..];
    }
  }

  lemma {:induction false} LongestIsMax(prefixes: seq<string>, content: string)
    ensures Longest(prefixes, content).None? ==> forall p | p in prefixes :: !Fits(p, content)
    ensures Longest(prefixes, content).Some? ==>
              && (exists p :: p in prefixes && Fits(p, content) && ByteLen(p) == Longest(prefixes, content).value)
              && (forall p | p in prefixes && Fits(p, content) :: ByteLen(p) <= Longest(prefixes, content).value)
  {
    if prefixes != [] {
      LongestIsMax(prefixes[1..], content);
      HeadAndTail(prefixes);
      hide Fits;
      var rest := Longest(prefixes[1..], content);
      if !Fits(prefixes[0], content) || (rest.Some? && rest.value > ByteLen(prefixes[0])) {
        if rest.Some? {
          var p :| p in prefixes[1..] && Fits(p, content) && ByteLen(p) == rest.value;
          assert p in prefixes;
        }
      } else {
        assert prefixes[0] in prefixes;
      }
    }
  }

  /** What a command of guild `g` may start with, read off the table alone. */
  function Stored(c: Config, s: State, g: Option<Guild>): set<string> {
    if g.Some? && RowsOf(s.rows, g.value) != {} then RowsOf(s.rows, g.value) else {c.default}
  }

  /** `found` splits the message after the longest stored prefix it starts with. */
  ghost predicate LongestStored(stored: set<string>, content: string, found: Option<(string, string)>) {
    match found
    case None => forall p | p in stored :: !Fits(p, content)
    case Some((p, rest)) =>
      && p in stored && p != "" && content == p + rest
      && forall q | q in stored && Fits(q, content) :: |q| <= |p|
  }

  lemma LongestByBytesIsLongest(p: string, q: string, content: string)
    requires p <= content && q <= content && ByteLen(q) <= ByteLen(p)
    ensures |q| <= |p|
  {
    assert content[..|p|] == p && content[..|q|] == q;
    if |p| < |q| {
      ByteLenPrefix(content, |p|, |q|);
    }
  }

  lemma FoundIsLongest(list: seq<string>, stored: set<string>, content: string)
    requires stored == SetOf(list)
    ensures var best := Longest(list, content);
            LongestStored(stored, content, if best.None? then None else SplitAt(content, best.value))
  {
    LongestIsMax(list, content);
    var best := Longest(list, content);
    assert forall p :: p in stored <==> p in list;
    hide Longest, SetOf;
    if best.Some? {
      var p :| p in list && Fits(p, content) && ByteLen(p) == best.value;
      SplitAtBoundary(p, content);
      assert content == p + content[|p|..];
      hide SplitAt, ByteLen;
      forall q | q in stored && Fits(q, content) ensures |q| <= |p| {
        LongestByBytesIsLongest(p, q, content);
      }
    }
  }

  lemma DispatchIsLongest(c: Config, s: State, g: Option<Guild>, content: string)
    requires Inv(c, s) && Warm(s)
    ensures LongestStored(Stored(c, s, g), content, DynamicPrefix(c, s, g, content))
  {
    ActiveIsStored(c, s, g);
    FoundIsLongest(GuildPrefixes(c, s, g), Stored(c, s, g), content);
    hide GuildPrefixes, Stored, Inv, Warm, LongestStored;
  }

  lemma ActiveIsStored(c: Config, s: State, g: Option<Guild>)
    requires Inv(c, s) && Warm(s)
    ensures SetOf(GuildPrefixes(c, s, g)) == Stored(c, s, g)
  {
    if g.Some? {
      if g.value in s.cache {
        assert SetOf(s.cache[g.value]) == RowsOf(s.rows, g.value);
        if s.cache[g.value] != [] {
          assert s.cache[g.value][0] in SetOf(s.cache[g.value]);
        }
      } else {
        assert RowsOf(s.rows, g.value) == {};
      }
    }
  }

  /** After any run that saw a `ready`, a message is split after the longest prefix stored
      for its guild that it starts with, or after the default when none is stored. */
  lemma DispatchFollowsTheTable(c: Config, s: State, events: seq<Event>, g: Option<Guild>, content: string)
    requires Inv(c, s) && FaithfulRun(c, s, events) && (Warm(s) || GotReady(events))
    ensures var t := Run(c, s, events); LongestStored(Stored(c, t, g), content, DynamicPrefix(c, t, g, content))
  {
    RunKeepsInv(c, s, events);
    hide *;
    DispatchIsLongest(c, Run(c, s, events), g, content);
  }

  // ---- one guild at a time ------------------------------------------------

  /** What an event for some guild leaves alone: every other guild. */
  ghost predicate SameFor(s: State, t: State, h: Guild) {
    && RowsOf(t.rows, h) == RowsOf(s.rows, h)
    && (h in t.cache <==> h in s.cache) && Cached(t.cache, h) == Cached(s.cache, h)
  }

  lemma RowsStay(rows: set<Row>, rows': set<Row>, h: Guild)
    requires forall r: Row | r.guild == h :: r in rows' <==> r in rows
    ensures RowsOf(rows', h) == RowsOf(rows, h)
  {
  }

  lemma EventsAreLocal(c: Config, s: State, e: Event, h: Guild)
    requires !e.Ready? && e.guild != h
    ensures SameFor(s, Next(c, s, e), h)
  {
    hide Sanitize, CleanAll, SortByLen, RowsOf, CustomPrefixes;
    RowsStay(s.rows, Next(c, s, e).rows, h);
  }

  // ---- the commands and hooks ---------------------------------------------

  lemma SortedAll(was: map<Guild, seq<string>>, cache: map<Guild, seq<string>>)
    requires cache.Keys == was.Keys && forall g :: g in was ==> cache[g] == SortByLen(was[g])
    ensures cache == SortAll(was)
  {
  }

  lemma ReadyIs(c: Config, s: State, all: seq<Row>)
    ensures Next(c, s, Ready(all)) == State(s.rows, SortAll(PushAll(s.cache, all)))
  {
  }

  class PrefixesCog {
    const config: Config
    var rows: set<Row>
    var cache: map<Guild, seq<string>>

    function View(): State
      reads this
    {
      State(rows, cache)
    }

    method OnReady(all: seq<Row>)
      modifies this
      ensures View() == Next(config, old(View()), Ready(all))
    {
      hide Next, SortByLen;
      assert all[0..] == all;
      for i := 0 to |all|
        invariant rows == old(rows)
        invariant PushAll(cache, all[i..]) == PushAll(old(cache), all)
      {
        assert all[i..][1..] == all[i + 1..];
        cache := cache[all[i].guild := Cached(cache, all[i].guild) + [all[i].prefix]];
      }
      ghost var pushed := cache;
      assert pushed == PushAll(old(cache), all);
      hide PushAll, Cached;
      var left := cache.Keys;
      while left != {}
        invariant rows == old(rows) && cache.Keys == pushed.Keys && left <= pushed.Keys
        invariant forall g :: g in left ==> cache[g] == pushed[g]
        invariant forall g :: g in pushed && g !in left ==> cache[g] == SortByLen(pushed[g])
        decreases |left|
      {
        var g :| g in left;
        cache := cache[g := SortByLen(cache[g])];
        left := left - {g};
      }
      SortedAll(pushed, cache);
      ReadyIs(config, State(old(rows), old(cache)), all);
    }

    method OnGuildCreate(g: Guild, listing: seq<string>)
      modifies this
      ensures View() == Next(config, old(View()), GuildCreate(g, listing))
    {
      if g in cache {
        return;
      }
      var existing := CustomPrefixes(View(), g, listing);
      if existing == [] {
        rows := rows + {Row(g, config.default)};
        cache := cache[g := [config.default]];
      } else {
        cache := cache[g := existing];
      }
    }

    method OnGuildDelete(g: Guild)
      modifies this
      ensures View() == Next(config, old(View()), GuildDelete(g))
    {
      rows := DropGuild(rows, g);
      cache := cache - {g};
    }

    method PrefixAdd(g: Guild, raw: string, listing: seq<string>) returns (reply: Reply)
      modifies this
      ensures reply == Answer(config, old(View()), Add(g, raw, listing))
      ensures View() == Next(config, old(View()), Add(g, raw, listing))
    {
      match Sanitize(raw, config.white) {
        case Bad(error) =>
          return Refused(error);
        case Ok(clean) =>
          var list := CustomPrefixes(View(), g, listing);
          if clean in list {
            return Refused(Present);
          }
          if |list| >= MAX_PREFIXES {
            return Refused(Full);
          }
          rows := rows + {Row(g, clean)};
          cache := cache[g := SortByLen(list + [clean])];
          return Done;
      }
    }

    method PrefixRemove(g: Guild, raw: string, listing: seq<string>) returns (reply: Reply)
      modifies this
      ensures reply == Answer(config, old(View()), Remove(g, raw, listing))
      ensures View() == Next(config, old(View()), Remove(g, raw, listing))
    {
      match Sanitize(raw, config.white) {
        case Bad(error) =>
          return Refused(error);
        case Ok(clean) =>
          var list := CustomPrefixes(View(), g, listing);
          if clean !in list {
            return Refused(Missing);
          }
          rows := rows - {Row(g, clean)};
          cache := cache[g := Without(list, clean)];
          return Done;
      }
    }

    method PrefixReset(g: Guild)
      modifies this
      ensures View() == Next(config, old(View()), Reset(g))
    {
      rows := DropGuild(rows, g);
      cache := cache - {g};
    }

    method PutPrefixes(g: Guild, raws: seq<string>) returns (reply: Reply)
      modifies this
      ensures reply == Answer(config, old(View()), Put(g, raws))
      ensures View() == Next(config, old(View()), Put(g, raws))
    {
      var clean: seq<string> := [];
      assert raws[0..] == raws;
      for i := 0 to |raws|
        invariant View() == old(View())
        invariant CleanAll(raws[i..], clean, config.white) == CleanAll(raws, [], config.white)
      {
        assert raws[i..][1..] == raws[i + 1..];
        match Sanitize(raws[i], config.white) {
          case Bad(error) =>
            return Refused(error);
          case Ok(p) =>
            if p !in clean {
              clean := clean + [p];
            }
        }
      }
      if |clean| > MAX_PREFIXES {
        return Refused(Full);
      }
      rows := DropGuild(rows, g);
      ghost var dropped := rows;
      for i := 0 to |clean|
        invariant cache == old(cache)
        invariant rows == dropped + set p | p in clean[..i] :: Row(g, p)
      {
        assert clean[..i + 1] == clean[..i] + [clean[i]];
        rows := rows + {Row(g, clean[i])};
      }
      assert clean[..|clean|] == clean;
      cache := if clean == [] then cache - {g} else cache[g := SortByLen(clean)];
      return Done;
    }
  }
}
