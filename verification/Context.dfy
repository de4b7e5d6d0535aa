/** Variables of a TagScript run: `get_var` and the list indexing of `string_index`. */
module Context {
  import opened Base

  /** Library behaviour the engine relies on but does not define. */
  datatype Library = Library(
    lower: string -> string,
    isSpace: char -> bool,
    /** Numeric `>=`, `<=`, `>`, `<`; None when a side is not a number. */
    compare: (string, string, string) -> Option<bool>,
    /** The n-th dispatch's clock. */
    clock: nat -> string,
    /** The n-th dispatch's random number, from its seed if it has one. */
    roll: (nat, Option<string>) -> nat,
    /** Arithmetic with its result formatted: `Blocks.Calculator` builds one. */
    calculate: string -> Option<string>,
    /** Blocks that only compute text: name, parameter, payload, at the n-th dispatch. */
    render: (nat, string, Option<string>, Option<string>) -> string)

  datatype Person = Person(name: string, mention: string, id: string, avatar: string, discriminator: string)
  datatype Channel = Channel(name: string, id: string, mention: string)
  datatype Server = Server(name: string, id: string, members: string, icon: string)

  /** The read-only half of `TagContext`. */
  datatype Env = Env(user: Person, target: Person, channel: Channel, server: Server,
                     args: string, uses: string)

  // ---- strings ------------------------------------------------------------

  function Trim(l: Library, s: string): string {
    TrimEnd(TrimStart(s, l.isSpace), l.isSpace)
  }

  /** Where `pat` first occurs at or after `i`; |s| + 1 if nowhere. */
  function Find(s: string, pat: string, i: nat): (r: nat)
    requires i <= |s|
    ensures r == |s| + 1 || (i <= r && r + |pat| <= |s| && s[r..r + |pat|] == pat)
    decreases |s| - i
  {
    if i + |pat| <= |s| && s[i..i + |pat|] == pat then i
    else if i == |s| then |s| + 1
    else Find(s, pat, i + 1)
  }

  function SplitOn(s: string, sep: string): (parts: seq<string>)
    requires sep != ""
    ensures parts != []
    decreases |s|
  {
    var at := Find(s, sep, 0);
    if at > |s| then [s] else [s[..at]] + SplitOn(s[at + |sep|..], sep)
  }

  lemma NotHere(s: string, pat: string, i: nat)
    requires pat != "" && i <= |s| && (i < |s| ==> s[i] != pat[0])
    ensures !(i + |pat| <= |s| && s[i..i + |pat|] == pat)
  {
    assert i + |pat| <= |s| ==> s[i..i + |pat|][0] == s[i];
  }

  lemma {:induction false} FindNone(s: string, pat: string, i: nat)
    requires i <= |s| && pat != "" && pat[0] !in s
    ensures Find(s, pat, i) == |s| + 1
    decreases |s| - i
  {
    NotHere(s, pat, i);
    if i < |s| {
      FindNone(s, pat, i + 1);
    }
  }

  lemma {:induction false} FindFirst(a: string, pat: string, b: string, i: nat)
    requires i <= |a| && pat != "" && pat[0] !in a
    ensures Find(a + pat + b, pat, i) == |a|
    decreases |a| - i
  {
    var s := a + pat + b;
    if i == |a| {
      assert s[i..i + |pat|] == pat;
    } else {
      assert s[i] == a[i];
      NotHere(s, pat, i);
      FindFirst(a, pat, b, i + 1);
    }
  }

  lemma {:induction false} JoinUndoesSplit(s: string, sep: string)
    requires sep != ""
    ensures Join(SplitOn(s, sep), sep) == s
    decreases |s|
  {
    var at := Find(s, sep, 0);
    if at <= |s| {
      var rest := s[at + |sep|..];
      JoinUndoesSplit(rest, sep);
      var parts := [s[..at]] + SplitOn(rest, sep);
      assert parts[1..] == SplitOn(rest, sep);
      assert s == s[..at] + s[at..at + |sep|] + rest;
    }
  }

  lemma {:induction false} JoinSplitsAt(parts: seq<string>, sep: string, k: nat)
    requires 0 < k < |parts|
    ensures Join(parts, sep) == Join(parts[..k], sep) + (sep + Join(parts[k..], sep))
  {
    if k == 1 {
      assert parts[..1] == [parts[0]];
    } else {
      JoinSplitsAt(parts[1..], sep, k - 1);
      assert parts[1..][..k - 1] == parts[..k][1..];
      assert parts[1..][k - 1..] == parts[k..];
      var a, b, c := parts[0] + sep, Join(parts[..k][1..], sep), sep + Join(parts[k..], sep);
      Assoc(a, b, c);
    }
  }

  /** A text with one separator in it splits in two. */
  lemma SplitOnce(a: string, sep: string, b: string)
    requires sep != "" && sep[0] !in a && sep[0] !in b
    ensures SplitOn(a + sep + b, sep) == [a, b]
  {
    var s := a + sep + b;
    FindFirst(a, sep, b, 0);
    FindNone(b, sep, 0);
    assert s[..|a|] == a && s[|a| + |sep|..] == b;
    assert SplitOn(b, sep) == [b];
  }

  // ---- integers -----------------------------------------------------------

  predicate IsDigit(c: char) {
    '0' <= c <= '9'
  }

  predicate OnlyDigits(s: string) {
    s == "" || (IsDigit(s[0]) && OnlyDigits(s[1..]))
  }

  function Decimal(s: string): nat {
    if s == "" then 0
    else
      var c := s[|s| - 1];
      10 * Decimal(s[..|s| - 1]) + if IsDigit(c) then c as int - '0' as int else 0
  }

  /** Rust's `parse::<i64>`: an optional sign of either kind, digits, no overflow. */
  function ParseI64(s: string): Option<int> {
    var signed := s != "" && s[0] in "+-";
    var digits := if signed then s[1..] else s;
    if digits == "" || !OnlyDigits(digits) then None
    else
      var n: int := Decimal(digits);
      var v := if signed && s[0] == '-' then -n else n;
      if -0x8000_0000_0000_0000 <= v < 0x8000_0000_0000_0000 then Some(v) else None
  }

  function WithoutPlus(s: string): string {
    if s == "" then ""
    else (if s[0] == '+' then "" else [s[0]]) + WithoutPlus(s[1..])
  }

  // ---- string_index -------------------------------------------------------

  /** Index resolution with negatives counted from the end. */
  function Resolved(i: int, len: nat): Option<nat> {
    var k := if i < 0 then len + i else i;
    if 0 <= k < len then Some(k) else None
  }

  function Splitter(payload: Option<string>): (sep: string)
    ensures sep != ""
  {
    if payload.None? || payload.value == "" then " " else payload.value
  }

  function StringIndex(l: Library, s: string, parameter: Option<string>, payload: Option<string>): string {
    if parameter.None? then s
    else Indexed(s, SplitOn(s, Splitter(payload)), Splitter(payload), Trim(l, parameter.value))
  }

  /** The items of `s` that the index `t` names; `s` itself when it names none. */
  function Indexed(s: string, parts: seq<string>, sep: string, t: string): string {
    match ParseI64(t)
    case Some(v) =>
      (match Resolved(if t[0] == '-' then v else v - 1, |parts|)
       case Some(k) => parts[k]
       case None => s)
    case None =>
      match ParseI64(WithoutPlus(t))
      case None => s
      case Some(v) =>
        var at := Resolved(if v > 0 then v - 1 else v, |parts|);
        if t[0] == '+' then Join(parts[..if at.Some? then at.value + 1 else 0], sep)
        else if t[|t| - 1] == '+' then Join(parts[at.GetOr(0)..], sep)
        else s
  }

  /** `{var(+n)}` is `{var(n)}`: the integer reader takes the plus sign first. */
  lemma PlusIsShadowed(l: Library, s: string, n: string, payload: Option<string>)
    requires n != "" && OnlyDigits(n) && Trim(l, n) == n && Trim(l, "+" + n) == "+" + n
    ensures StringIndex(l, s, Some("+" + n), payload) == StringIndex(l, s, Some(n), payload)
  {
    hide *;
    IndexIs(l, s, n, payload);
    IndexIs(l, s, "+" + n, payload);
    PlusIndexed(s, SplitOn(s, Splitter(payload)), Splitter(payload), n);
    DigitsIndexed(s, SplitOn(s, Splitter(payload)), Splitter(payload), n);
  }

  lemma DigitsIndexed(s: string, parts: seq<string>, sep: string, n: string)
    requires n != "" && OnlyDigits(n) && 0 < |parts|
    ensures Indexed(s, parts, sep, n) ==
              if Decimal(n) == 0 then parts[|parts| - 1]
              else if Decimal(n) <= |parts| && Decimal(n) < 0x8000_0000_0000_0000 then parts[Decimal(n) - 1] else s
  {
    hide *;
    FirstIsDigit(n);
    PlusIsPlain(n);
    DigitsHavePlus(n);
    if Decimal(n) < 0x8000_0000_0000_0000 {
      PlainIndex(s, parts, sep, n, Decimal(n));
    } else {
      NoIndex(s, parts, sep, n);
    }
  }

  lemma FirstIsDigit(n: string)
    requires n != "" && OnlyDigits(n)
    ensures n[0] !in "+-"
  {
  }

  lemma PlusIsPlain(n: string)
    requires OnlyDigits(n) && n != ""
    ensures ParseI64("+" + n) == if Decimal(n) < 0x8000_0000_0000_0000 then Some(Decimal(n)) else None
    ensures ParseI64(n) == if Decimal(n) < 0x8000_0000_0000_0000 then Some(Decimal(n)) else None
  {
    hide Decimal;
    assert ("+" + n)[1..] == n;
  }

  lemma {:induction false} DigitsHavePlus(n: string)
    requires OnlyDigits(n)
    ensures WithoutPlus(n) == n
  {
    if n != "" {
      DigitsHavePlus(n[1..]);
      HeadAndTail(n);
    }
  }

  /** What `{var(+n)}` gives: the last item for 0, the n-th for a number of an item, and
      the whole string past the end. */
  lemma PlusIndex(l: Library, s: string, parameter: string, n: string, payload: Option<string>)
    requires n != "" && OnlyDigits(n) && Trim(l, parameter) == "+" + n
    requires |SplitOn(s, Splitter(payload))| < 0x8000_0000_0000_0000
    ensures var parts := SplitOn(s, Splitter(payload));
            StringIndex(l, s, Some(parameter), payload) ==
              if Decimal(n) == 0 then parts[|parts| - 1]
              else if Decimal(n) <= |parts| then parts[Decimal(n) - 1] else s
  {
    hide *;
    IndexIs(l, s, parameter, payload);
    PlusIndexed(s, SplitOn(s, Splitter(payload)), Splitter(payload), n);
  }

  lemma PlusIndexed(s: string, parts: seq<string>, sep: string, n: string)
    requires n != "" && OnlyDigits(n) && 0 < |parts|
    ensures Indexed(s, parts, sep, "+" + n) ==
              if Decimal(n) == 0 then parts[|parts| - 1]
              else if Decimal(n) <= |parts| && Decimal(n) < 0x8000_0000_0000_0000 then parts[Decimal(n) - 1] else s
  {
    hide *;
    PlusIsPlain(n);
    PlusTaken(n);
    assert ("+" + n)[0] == '+';
    if Decimal(n) < 0x8000_0000_0000_0000 {
      PlainIndex(s, parts, sep, "+" + n, Decimal(n));
    } else {
      NoIndex(s, parts, sep, "+" + n);
    }
  }

  lemma PlainIndex(s: string, parts: seq<string>, sep: string, t: string, v: nat)
    requires t != "" && t[0] != '-' && ParseI64(t) == Some(v) && parts != []
    ensures Indexed(s, parts, sep, t) ==
              if v == 0 then parts[|parts| - 1] else if v <= |parts| then parts[v - 1] else s
  {
    hide ParseI64, WithoutPlus, Join;
  }

  lemma NoIndex(s: string, parts: seq<string>, sep: string, t: string)
    requires ParseI64(t) == None && ParseI64(WithoutPlus(t)) == None
    ensures Indexed(s, parts, sep, t) == s
  {
    hide ParseI64, WithoutPlus, Join;
  }

  lemma PlusTaken(n: string)
    requires OnlyDigits(n)
    ensures WithoutPlus("+" + n) == n
  {
    DigitsHavePlus(n);
    assert ("+" + n)[1..] == n;
    assert "" + WithoutPlus(n) == n;
  }

  /** The first `n` items joined, or all of them: what `{var(+n)}` is documented to give. */
  function JoinUpTo(parts: seq<string>, n: nat, sep: string): string {
    Join(parts[..if n < |parts| then n else |parts|], sep)
  }

  lemma JoinUpToIsItem(parts: seq<string>, n: nat, sep: string)
    requires sep != "" && 1 <= n <= |parts|
    ensures JoinUpTo(parts, n, sep) == parts[n - 1] <==> n == 1
  {
    var head := parts[..n];
    assert head[n - 1] == parts[n - 1];
    if n == 1 {
      assert head == [parts[0]];
    } else {
      JoinSplitsAt(head, sep, n - 1);
      assert head[n - 1..] == [parts[n - 1]];
      assert |JoinUpTo(parts, n, sep)| > |parts[n - 1]|;
    }
  }

  /** `{var(+n)}` joins the items up to the n-th, as documented, exactly for `+1`, past the
      last item, and for `+0` when the last item is empty. */
  lemma PlusJoinsHeadIff(l: Library, s: string, parameter: string, n: string, payload: Option<string>)
    requires n != "" && OnlyDigits(n) && Trim(l, parameter) == "+" + n
    requires |SplitOn(s, Splitter(payload))| < 0x8000_0000_0000_0000
    ensures var parts := SplitOn(s, Splitter(payload));
            StringIndex(l, s, Some(parameter), payload) == JoinUpTo(parts, Decimal(n), Splitter(payload)) <==>
              if Decimal(n) == 0 then parts[|parts| - 1] == "" else Decimal(n) == 1 || Decimal(n) > |parts|
  {
    hide *;
    JoinUndoesSplit(s, Splitter(payload));
    IndexIs(l, s, parameter, payload);
    PlusJoins(s, SplitOn(s, Splitter(payload)), Splitter(payload), n);
  }

  lemma IndexIs(l: Library, s: string, parameter: string, payload: Option<string>)
    ensures StringIndex(l, s, Some(parameter), payload)
            == Indexed(s, SplitOn(s, Splitter(payload)), Splitter(payload), Trim(l, parameter))
  {
  }

  lemma PlusJoins(s: string, parts: seq<string>, sep: string, n: string)
    requires n != "" && OnlyDigits(n) && sep != "" && 0 < |parts| < 0x8000_0000_0000_0000 && Join(parts, sep) == s
    ensures Indexed(s, parts, sep, "+" + n) == JoinUpTo(parts, Decimal(n), sep) <==>
              if Decimal(n) == 0 then parts[|parts| - 1] == "" else Decimal(n) == 1 || Decimal(n) > |parts|
  {
    hide *;
    var k := Decimal(n);
    PlusIndexed(s, parts, sep, n);
    if k == 0 {
      JoinUpToNone(parts, sep);
    } else if k <= |parts| {
      JoinUpToIsItem(parts, k, sep);
    } else {
      JoinUpToAll(parts, k, sep);
    }
  }

  lemma JoinUpToNone(parts: seq<string>, sep: string)
    ensures JoinUpTo(parts, 0, sep) == ""
  {
    if parts != [] {
      assert parts[..0] == [];
    }
  }

  lemma JoinUpToAll(parts: seq<string>, n: nat, sep: string)
    requires n >= |parts|
    ensures JoinUpTo(parts, n, sep) == Join(parts, sep)
  {
    assert parts[..|parts|] == parts;
  }

  /** `{var(+2)}` of "a b" is "b", not "a b". */
  lemma PlusInput(l: Library)
    requires !l.isSpace('+') && !l.isSpace('2')
    ensures StringIndex(l, "a b", Some("+2"), None) == "b"
    ensures JoinUpTo(SplitOn("a b", " "), 2, " ") == "a b"
  {
    SplitExample();
    TrimExample(l);
    TwoIsRead();
    hide SplitOn, Trim, Decimal;
    PlusIndex(l, "a b", "+2", "2", None);
    assert ["a", "b"][..2] == ["a", "b"] && ["a", "b"][1..] == ["b"];
    assert Join(["b"], " ") == "b";
  }

  lemma TwoIsRead()
    ensures Decimal("2") == 2 && OnlyDigits("2")
  {
    assert "2"[..0] == "" && "2"[1..] == "";
  }

  lemma TrimExample(l: Library)
    requires !l.isSpace('+') && !l.isSpace('2')
    ensures Trim(l, "+2") == "+" + "2"
  {
  }

  lemma SplitExample()
    ensures SplitOn("a b", " ") == ["a", "b"]
  {
    var s := "a b";
    assert s[0..1] == "a" && s[1..2] == " ";
    assert Find(s, " ", 0) == Find(s, " ", 1) == 1;
    assert s[..1] == "a" && s[2..] == "b";
    assert "b"[0..1] == "b";
    assert Find("b", " ", 0) == Find("b", " ", 1) == 2;
    assert SplitOn("b", " ") == ["b"];
  }

  lemma {:induction false} PlusAfterDigits(n: string)
    requires OnlyDigits(n)
    ensures WithoutPlus(n + "+") == n && !OnlyDigits(n + "+")
  {
    if n == "" {
      assert n + "+" == "+";
      assert ("+")[1..] == "";
    } else {
      assert (n + "+")[1..] == n[1..] + "+";
      PlusAfterDigits(n[1..]);
      HeadAndTail(n);
    }
  }

  /** What `{var(n+)}` gives: the items from the n-th on, and the whole string for 0, 1 and
      past the last item. */
  lemma TailIndex(l: Library, s: string, parameter: string, n: string, payload: Option<string>)
    requires n != "" && OnlyDigits(n) && Trim(l, parameter) == n + "+"
    requires |SplitOn(s, Splitter(payload))| < 0x8000_0000_0000_0000
    ensures var parts := SplitOn(s, Splitter(payload));
            StringIndex(l, s, Some(parameter), payload) ==
              if 2 <= Decimal(n) <= |parts| then Join(parts[Decimal(n) - 1..], Splitter(payload)) else s
  {
    hide *;
    IndexIs(l, s, parameter, payload);
    JoinUndoesSplit(s, Splitter(payload));
    TailIndexed(s, SplitOn(s, Splitter(payload)), Splitter(payload), n);
  }

  lemma TailIndexed(s: string, parts: seq<string>, sep: string, n: string)
    requires n != "" && OnlyDigits(n) && |parts| < 0x8000_0000_0000_0000 && Join(parts, sep) == s
    ensures Indexed(s, parts, sep, n + "+") ==
              if 2 <= Decimal(n) <= |parts| then Join(parts[Decimal(n) - 1..], sep) else s
  {
    hide *;
    PlusAfterDigits(n);
    PlusIsPlain(n);
    NotANumber(n);
    FirstIsDigit(n);
    assert (n + "+")[0] == n[0] && (n + "+")[|n|] == '+';
    if Decimal(n) < 0x8000_0000_0000_0000 {
      FromIndex(s, parts, sep, n + "+", Decimal(n));
    } else {
      NoIndex(s, parts, sep, n + "+");
    }
  }

  lemma FromIndex(s: string, parts: seq<string>, sep: string, t: string, v: nat)
    requires ParseI64(t) == None && ParseI64(WithoutPlus(t)) == Some(v) && Join(parts, sep) == s
    requires t != "" && t[0] != '+' && t[|t| - 1] == '+'
    ensures Indexed(s, parts, sep, t) == if 2 <= v <= |parts| then Join(parts[v - 1..], sep) else s
  {
    hide ParseI64, WithoutPlus, Join;
    assert parts[0..] == parts;
  }

  lemma NotANumber(n: string)
    requires n != "" && OnlyDigits(n)
    ensures ParseI64(n + "+") == None
  {
    PlusAfterDigits(n);
    assert (n + "+")[0] == n[0];
  }

  /** `{var(n+)}` drops exactly the first n-1 items: put back, they give the string. */
  lemma TailJoinCompletes(l: Library, s: string, parameter: string, n: string, payload: Option<string>)
    requires n != "" && OnlyDigits(n) && Trim(l, parameter) == n + "+"
    requires 2 <= Decimal(n) <= |SplitOn(s, Splitter(payload))| < 0x8000_0000_0000_0000
    ensures var sep := Splitter(payload);
            s == Join(SplitOn(s, sep)[..Decimal(n) - 1], sep)
                 + (sep + StringIndex(l, s, Some(parameter), payload))
  {
    hide *;
    TailIndex(l, s, parameter, n, payload);
    JoinUndoesSplit(s, Splitter(payload));
    JoinSplitsAt(SplitOn(s, Splitter(payload)), Splitter(payload), Decimal(n) - 1);
  }

  lemma MinusIsNumber(n: string)
    requires n != "" && OnlyDigits(n)
    ensures var v: int := Decimal(n); ParseI64("-" + n) == if v <= 0x8000_0000_0000_0000 then Some(-v) else None
  {
    hide Decimal, OnlyDigits;
    var t := "-" + n;
    assert t != "" && t[0] == '-' && t[1..] == n;
  }

  lemma MinusHasNoPlus(n: string)
    requires OnlyDigits(n)
    ensures WithoutPlus("-" + n) == "-" + n
  {
    DigitsHavePlus(n);
    hide OnlyDigits;
    assert ("-" + n)[0] == '-' && ("-" + n)[1..] == n;
    assert ['-'] + n == "-" + n;
  }

  lemma BackIndex(s: string, parts: seq<string>, sep: string, t: string, v: int)
    requires v >= 0 && t != "" && t[0] == '-' && ParseI64(t) == Some(-v) && parts != []
    ensures Indexed(s, parts, sep, t) ==
              if v == 0 then parts[0] else if v <= |parts| then parts[|parts| - v] else s
  {
    hide ParseI64, WithoutPlus, Join;
  }

  lemma MinusIndexed(s: string, parts: seq<string>, sep: string, n: string)
    requires n != "" && OnlyDigits(n) && 0 < |parts| < 0x8000_0000_0000_0000
    ensures Indexed(s, parts, sep, "-" + n) ==
              if Decimal(n) == 0 then parts[0]
              else if Decimal(n) <= |parts| then parts[|parts| - Decimal(n)] else s
  {
    hide *;
    MinusIsNumber(n);
    MinusHasNoPlus(n);
    assert ("-" + n)[0] == '-';
    if Decimal(n) <= 0x8000_0000_0000_0000 {
      BackIndex(s, parts, sep, "-" + n, Decimal(n));
    } else {
      NoIndex(s, parts, sep, "-" + n);
    }
  }

  /** What `{var(-n)}` gives: the n-th item from the end, the whole string past the first, and
      for `-0` the first item. */
  lemma NegativeIndex(l: Library, s: string, parameter: string, n: string, payload: Option<string>)
    requires n != "" && OnlyDigits(n) && Trim(l, parameter) == "-" + n
    requires |SplitOn(s, Splitter(payload))| < 0x8000_0000_0000_0000
    ensures var parts := SplitOn(s, Splitter(payload));
            StringIndex(l, s, Some(parameter), payload) ==
              if Decimal(n) == 0 then parts[0]
              else if Decimal(n) <= |parts| then parts[|parts| - Decimal(n)] else s
  {
    hide *;
    IndexIs(l, s, parameter, payload);
    MinusIndexed(s, SplitOn(s, Splitter(payload)), Splitter(payload), n);
  }

  // ---- get_var ------------------------------------------------------------

  function PersonAttr(p: Person, attr: Option<string>): string {
    match attr.GetOr("name")
    case "" => p.name
    case "name" => p.name
    case "nick" => p.name
    case "id" => p.id
    case "mention" => p.mention
    case "avatar" => p.avatar
    case "discriminator" => p.discriminator
    case _ => ""
  }

  function ChannelAttr(c: Channel, attr: Option<string>): string {
    match attr.GetOr("name")
    case "" => c.name
    case "name" => c.name
    case "id" => c.id
    case "mention" => c.mention
    case _ => ""
  }

  function ServerAttr(s: Server, attr: Option<string>): string {
    match attr.GetOr("name")
    case "" => s.name
    case "name" => s.name
    case "id" => s.id
    case "member_count" => s.members
    case "members" => s.members
    case "icon" => s.icon
    case _ => ""
  }

  /** User variables shadow `args`, which shadows the built-in attributes. */
  function GetVar(l: Library, env: Env, vars: map<string, string>, call: nat,
                  name: string, parameter: Option<string>, payload: Option<string>): Option<string>
  {
    if name in vars then Some(StringIndex(l, vars[name], parameter, payload))
    else if name == "args" then Some(StringIndex(l, env.args, parameter, payload))
    else if name == "uses" then Some(env.uses)
    else if name == "unix" then Some(l.clock(call))
    else
      var dot := Find(name, ".", 0);
      var base := if dot <= |name| then name[..dot] else name;
      var attr0 := if dot <= |name| then Some(name[dot + 1..]) else parameter;
      var attr := if attr0.Some? then Some(Trim(l, attr0.value)) else None;
      match base
      case "user" => Some(PersonAttr(env.user, attr))
      case "author" => Some(PersonAttr(env.user, attr))
      case "target" => Some(PersonAttr(env.target, attr))
      case "channel" => Some(ChannelAttr(env.channel, attr))
      case "server" => Some(ServerAttr(env.server, attr))
      case "guild" => Some(ServerAttr(env.server, attr))
      case _ => None
  }

  /** A name that nothing but the attributes answers to. */
  predicate AttributeName(vars: map<string, string>, name: string) {
    name !in vars && name !in {"args", "uses", "unix"}
  }

  /** `{user.id}` is `{user(id)}`, for every base and attribute, whatever the parameter or
      payload written beside the dotted name. */
  lemma DotIsParenthesis(l: Library, env: Env, vars: map<string, string>, call: nat, base: string, attr: string,
                         parameter: Option<string>, payload: Option<string>)
    requires '.' !in base && AttributeName(vars, base) && base + "." + attr !in vars
    ensures GetVar(l, env, vars, call, base + "." + attr, parameter, payload)
            == GetVar(l, env, vars, call, base, Some(attr), None)
  {
    var name := base + "." + attr;
    assert name[|base|] == '.';
    assert name !in {"args", "uses", "unix"};
    FindFirst(base, ".", attr, 0);
    FindNone(base, ".", 0);
    assert name[..|base|] == base && name[|base| + 1..] == attr;
    hide PersonAttr, ChannelAttr, ServerAttr, Trim, Find, StringIndex;
  }

  lemma BaseIsRead(l: Library, env: Env, vars: map<string, string>, call: nat, base: string, attr: Option<string>)
    requires AttributeName(vars, base) && '.' !in base
    ensures var a := if attr.Some? then Some(Trim(l, attr.value)) else None;
            GetVar(l, env, vars, call, base, attr, None) ==
              (if base == "user" || base == "author" then Some(PersonAttr(env.user, a))
               else if base == "target" then Some(PersonAttr(env.target, a))
               else if base == "channel" then Some(ChannelAttr(env.channel, a))
               else if base == "server" || base == "guild" then Some(ServerAttr(env.server, a))
               else None)
  {
    FindNone(base, ".", 0);
    hide PersonAttr, ChannelAttr, ServerAttr, Trim, Find, StringIndex;
  }

  /** What a block of that name alone, or with an attribute, stands for. */
  ghost predicate Reads(l: Library, env: Env, vars: map<string, string>, base: string, attr: Option<string>, text: string) {
    AttributeName(vars, base) ==> forall call: nat :: GetVar(l, env, vars, call, base, attr, None) == Some(text)
  }

  /** White space around an attribute does not matter. */
  predicate Says(l: Library, attr: string, word: string) {
    Trim(l, attr) == word
  }

  lemma PersonAttrIs(p: Person, a: string)
    ensures PersonAttr(p, None) == p.name && (a in {"", "name", "nick"} ==> PersonAttr(p, Some(a)) == p.name)
    ensures PersonAttr(p, Some("id")) == p.id && PersonAttr(p, Some("mention")) == p.mention
    ensures PersonAttr(p, Some("avatar")) == p.avatar && PersonAttr(p, Some("discriminator")) == p.discriminator
  {
  }

  lemma PlaceAttrIs(env: Env, a: string)
    ensures var c, s := env.channel, env.server;
            && ChannelAttr(c, None) == c.name && ServerAttr(s, None) == s.name
            && (a in {"", "name"} ==> ChannelAttr(c, Some(a)) == c.name && ServerAttr(s, Some(a)) == s.name)
            && ChannelAttr(c, Some("id")) == c.id && ChannelAttr(c, Some("mention")) == c.mention
            && ServerAttr(s, Some("id")) == s.id && ServerAttr(s, Some("icon")) == s.icon
            && ServerAttr(s, Some("members")) == s.members && ServerAttr(s, Some("member_count")) == s.members
  {
  }

  /** What the attributes of people stand for, through either spelling of the base. */
  lemma PersonReads(l: Library, env: Env, vars: map<string, string>, base: string, attr: string)
    requires base in {"user", "author", "target"}
    ensures var p := if base == "target" then env.target else env.user;
            && Reads(l, env, vars, base, None, p.name)
            && (Says(l, attr, "") || Says(l, attr, "name") || Says(l, attr, "nick") ==> Reads(l, env, vars, base, Some(attr), p.name))
            && (Says(l, attr, "id") ==> Reads(l, env, vars, base, Some(attr), p.id))
            && (Says(l, attr, "mention") ==> Reads(l, env, vars, base, Some(attr), p.mention))
            && (Says(l, attr, "avatar") ==> Reads(l, env, vars, base, Some(attr), p.avatar))
            && (Says(l, attr, "discriminator") ==> Reads(l, env, vars, base, Some(attr), p.discriminator))
  {
    PersonAttrIs(if base == "target" then env.target else env.user, Trim(l, attr));
    hide GetVar, Trim, PersonAttr, ChannelAttr, ServerAttr, AttributeName;
    AllBasesRead(l, env, vars, base, None);
    AllBasesRead(l, env, vars, base, Some(attr));
  }

  /** What the attributes of the channel and the server stand for. */
  lemma PlaceReads(l: Library, env: Env, vars: map<string, string>, base: string, attr: string)
    ensures base == "channel" ==>
              && Reads(l, env, vars, base, None, env.channel.name)
              && (Says(l, attr, "") || Says(l, attr, "name") ==> Reads(l, env, vars, base, Some(attr), env.channel.name))
              && (Says(l, attr, "id") ==> Reads(l, env, vars, base, Some(attr), env.channel.id))
              && (Says(l, attr, "mention") ==> Reads(l, env, vars, base, Some(attr), env.channel.mention))
    ensures base in {"server", "guild"} ==>
              && Reads(l, env, vars, base, None, env.server.name)
              && (Says(l, attr, "") || Says(l, attr, "name") ==> Reads(l, env, vars, base, Some(attr), env.server.name))
              && (Says(l, attr, "id") ==> Reads(l, env, vars, base, Some(attr), env.server.id))
              && (Says(l, attr, "members") || Says(l, attr, "member_count") ==>
                    Reads(l, env, vars, base, Some(attr), env.server.members))
              && (Says(l, attr, "icon") ==> Reads(l, env, vars, base, Some(attr), env.server.icon))
  {
    PlaceAttrIs(env, Trim(l, attr));
    hide GetVar, Trim, PersonAttr, ChannelAttr, ServerAttr, AttributeName;
    if base in {"channel", "server", "guild"} {
      AllBasesRead(l, env, vars, base, None);
      AllBasesRead(l, env, vars, base, Some(attr));
    }
  }

  lemma AllBasesRead(l: Library, env: Env, vars: map<string, string>, base: string, attr: Option<string>)
    requires '.' !in base
    ensures var a := if attr.Some? then Some(Trim(l, attr.value)) else None;
            AttributeName(vars, base) ==> forall call: nat ::
              GetVar(l, env, vars, call, base, attr, None) ==
              (if base == "user" || base == "author" then Some(PersonAttr(env.user, a))
               else if base == "target" then Some(PersonAttr(env.target, a))
               else if base == "channel" then Some(ChannelAttr(env.channel, a))
               else if base == "server" || base == "guild" then Some(ServerAttr(env.server, a))
               else None)
  {
    forall call: nat | AttributeName(vars, base) {
      BaseIsRead(l, env, vars, call, base, attr);
    }
    hide GetVar, Trim, PersonAttr, ChannelAttr, ServerAttr;
  }

  /** The scalar variables: the number of uses and the clock, whatever is written beside them,
      and the arguments, which are indexed. An unknown name is none. */
  lemma ScalarReads(l: Library, env: Env, vars: map<string, string>, call: nat,
                    name: string, parameter: Option<string>, payload: Option<string>)
    requires name !in vars
    ensures var v := GetVar(l, env, vars, call, name, parameter, payload);
            && (name == "uses" ==> v == Some(env.uses))
            && (name == "unix" ==> v == Some(l.clock(call)))
            && (name == "args" ==> v == Some(if parameter.None? then env.args else StringIndex(l, env.args, parameter, payload)))
            && ('.' !in name && name !in {"args", "uses", "unix", "user", "author", "target", "channel", "server", "guild"}
                ==> v.None?)
  {
    if '.' !in name {
      FindNone(name, ".", 0);
    }
    hide PersonAttr, ChannelAttr, ServerAttr, Trim, Find, Indexed, Splitter, SplitOn;
  }
}
