/** What the keywords of the language mean, through conditions, dispatch and the whole run. */
module Keywords {
  import opened Base
  import opened Context
  import opened Lexer
  import opened Engine
  import opened Blocks
  import opened Templates
  import Codecs
  import Random

  // ---- comparisons --------------------------------------------------------

  lemma FoundAt(a: string, op: string, b: string)
    requires op != "" && op[0] !in a
    ensures SplitAtFirst(a + op + b, op) == Some((a, b))
  {
    FindFirst(a, op, b, 0);
    var s := a + op + b;
    assert s[..|a|] == a && s[|a| + |op|..] == b;
  }

  lemma NotFound(s: string, op: string)
    requires op != "" && op[0] !in s
    ensures SplitAtFirst(s, op).None?
  {
    FindNone(s, op, 0);
  }

  /** What is found is there. */
  lemma FoundIsThere(s: string, op: string)
    requires |op| == 2 && SplitAtFirst(s, op).Some?
    ensures exists i :: 0 <= i < |s| - 1 && s[i] == op[0] && s[i + 1] == op[1]
  {
    var at := Find(s, op, 0);
    assert s[at..at + 2][0] == s[at] && s[at..at + 2][1] == s[at + 1];
  }

  lemma WhereSignsAre(a: string, op: string, b: string, i: nat)
    requires i < |a| + |op| + |b|
    ensures var s := a + op + b; s[i] in a || s[i] in b || (|a| <= i < |a| + |op| && s[i] == op[i - |a|])
  {
  }

  /** One `=` is no `==`. */
  lemma OneSignIsNone(a: string, op: string, b: string)
    requires Free(a, "=") && Free(b, "=") && op in {">=", "<=", ">", "<"}
    ensures SplitAtFirst(a + op + b, "==").None?
  {
    var s := a + op + b;
    forall i | 0 <= i < |s| && s[i] == '=' ensures i == |a| + 1 {
      WhereSignsAre(a, op, b, i);
    }
    hide SplitAtFirst;
    if SplitAtFirst(s, "==").Some? {
      FoundIsThere(s, "==");
    }
  }

  /** The signs that ask for an order compare the two sides as numbers, white space apart. */
  lemma OrderIsCompared(l: Library, a: string, op: string, b: string)
    requires op in {">=", "<=", ">", "<"} && Free(a, "!=<>") && Free(b, "!=<>")
    requires l.lower(Trim(l, a + op + b)) !in {"true", "false"}
    ensures ParseIf(l, a + op + b) == l.compare(op, Trim(l, a), Trim(l, b))
  {
    var s := a + op + b;
    assert op[0] !in a && forall c | c in s :: c in a || c in op || c in b;
    hide Trim, Find, SplitAtFirst;
    NotFound(s, "!=");
    OneSignIsNone(a, op, b);
    FoundAt(a, op, b);
    EarlierSigns(s, a, op, b);
    assert ParseIf(l, s) == CompareFrom(l, s, 0) == CompareFrom(l, s, 1) == CompareFrom(l, s, 2);
    assert op != ">=" ==> CompareFrom(l, s, 2) == CompareFrom(l, s, 3);
    assert op in {">", "<"} ==> CompareFrom(l, s, 3) == CompareFrom(l, s, 4);
    assert op == "<" ==> CompareFrom(l, s, 4) == CompareFrom(l, s, 5);
  }

  /** The signs tried before `op` do not occur. */
  lemma EarlierSigns(s: string, a: string, op: string, b: string)
    requires s == a + op + b && op in {">=", "<=", ">", "<"} && Free(a, "!=<>") && Free(b, "!=<>")
    ensures op != ">=" ==> SplitAtFirst(s, ">=").None?
    ensures op in {">", "<"} ==> SplitAtFirst(s, "<=").None?
    ensures op == "<" ==> SplitAtFirst(s, ">").None?
  {
    assert forall c | c in s :: c in a || c in op || c in b;
    if op == ">" {
      NoEqualsSign(s, ">=");
      NotFound(s, "<=");
    } else if op != ">=" {
      NotFound(s, ">=");
      NotFound(s, ">");
      if op == "<" { NoEqualsSign(s, "<="); }
    }
  }

  lemma NoEqualsSign(s: string, op: string)
    requires |op| == 2 && op[1] == '=' && '=' !in s
    ensures SplitAtFirst(s, op).None?
  {
    hide SplitAtFirst;
    if SplitAtFirst(s, op).Some? {
      FoundIsThere(s, op);
    }
  }

  // ---- one dispatch -------------------------------------------------------

  /** A name that means a keyword whatever its case. */
  predicate Means(l: Library, name: string, words: set<string>) {
    l.lower(name) in words && Named(name)
  }

  lemma MeansAll(l: Library, name: string)
    ensures Means(l, name, {"all", "and"}) ==> KindOf(l.lower(name)) == All && Named(name)
    ensures Means(l, name, {"any", "or"}) ==> KindOf(l.lower(name)) == Any && Named(name)
  {
  }

  lemma MeansOne(l: Library, name: string)
    ensures Means(l, name, {"not"}) ==> KindOf(l.lower(name)) == Not && Named(name)
    ensures Means(l, name, {"choose"}) ==> KindOf(l.lower(name)) == Choose && Named(name)
    ensures Means(l, name, {"delete", "del"}) ==> KindOf(l.lower(name)) == Delete && Named(name)
  {
  }

  lemma MeansHalt(l: Library, name: string)
    ensures Means(l, name, {"break", "short", "shortcircuit"}) ==> KindOf(l.lower(name)) == Break && Named(name)
    ensures Means(l, name, {"stop", "halt"}) ==> KindOf(l.lower(name)) == Stop && Named(name)
  {
  }

  predicate Named(name: string) {
    name != "" ==> name[0] != '$'
  }

  lemma ListsDecide(l: Library, env: Env, vars: map<string, string>, call: nat, name: string, p: string, q: string)
    requires Named(name)
    ensures var k, d := KindOf(l.lower(name)), Decide(l, env, vars, call, name, Some(p), Some(q));
            && (k == All ==> d == (ParseIntoOutput(q, ParseListAll(l, p, true)), NoChange))
            && (k == Any ==> d == (ParseIntoOutput(q, ParseListAll(l, p, false)), NoChange))
  {
    hide KindOf, ParseIf, ParseIntoOutput, ParseListAll, Lookup, RandomText, Chosen;
  }

  lemma OnesDecide(l: Library, env: Env, vars: map<string, string>, call: nat, name: string,
                   parameter: Option<string>, payload: Option<string>)
    requires Named(name)
    ensures var k, d := KindOf(l.lower(name)), Decide(l, env, vars, call, name, parameter, payload);
            var p, q := ParseIf(l, parameter.GetOr("")), payload.GetOr("");
            && (k == Not ==> d == (Truth(Negated(ParseIf(l, q))), NoChange))
            && (k == Break ==> d == ("", if p == Some(true) then BreakWith(q) else NoChange))
            && (k == Stop ==> d == ("", if p == Some(true) then StopWith(q) else NoChange))
            && (k == Choose ==> d == (Chosen(l, q, l.roll(call, Random.Seed(parameter))), NoChange))
            && (k == Delete ==>
                  d == ("", if parameter.None? || p == Some(true) then Emit(Effect("delete", None, None)) else NoChange))
  {
    hide KindOf, ParseIf, ParseIntoOutput, ParseListAll, Lookup, RandomText, Chosen;
  }

  lemma BranchOfList(l: Library, items: seq<string>, all: bool, x: string, y: string)
    requires items != [] && forall i | 0 <= i < |items| - 1 :: !Codecs.EndsInBackslash(items[i])
    requires !Codecs.EndsInBackslash(x)
    ensures ParseIntoOutput(Codecs.JoinEscaped([x, y]), ParseListAll(l, Codecs.JoinEscaped(items), all)) ==
              if (if all then forall i | i in items :: ParseIf(l, i) == Some(true)
                  else exists i | i in items :: ParseIf(l, i) == Some(true)) then x else y
  {
    ListIsJudgedByItems(l, items, all);
    BranchIsChosen(x, y, ParseListAll(l, Codecs.JoinEscaped(items), all));
    hide ParseIf, ParseIntoOutput, ParseListAll, Codecs.JoinEscaped, Codecs.EndsInBackslash;
  }

  /** `{all(c|d):x|y}` gives `x` when every condition holds, and else `y`. */
  lemma AllChooses(l: Library, env: Env, vars: map<string, string>, call: nat, name: string,
                   items: seq<string>, x: string, y: string)
    requires Means(l, name, {"all", "and"})
    requires items != [] && forall i | 0 <= i < |items| - 1 :: !Codecs.EndsInBackslash(items[i])
    requires !Codecs.EndsInBackslash(x)
    ensures Decide(l, env, vars, call, name, Some(Codecs.JoinEscaped(items)), Some(Codecs.JoinEscaped([x, y])))
            == (if forall i | i in items :: ParseIf(l, i) == Some(true) then x else y, NoChange)
  {
    hide *;
    BranchOfList(l, items, true, x, y);
    MeansAll(l, name);
    ListsDecide(l, env, vars, call, name, Codecs.JoinEscaped(items), Codecs.JoinEscaped([x, y]));
  }

  /** `{any(c|d):x|y}` gives `x` when some condition holds, and else `y`. */
  lemma AnyChooses(l: Library, env: Env, vars: map<string, string>, call: nat, name: string,
                   items: seq<string>, x: string, y: string)
    requires Means(l, name, {"any", "or"})
    requires items != [] && forall i | 0 <= i < |items| - 1 :: !Codecs.EndsInBackslash(items[i])
    requires !Codecs.EndsInBackslash(x)
    ensures Decide(l, env, vars, call, name, Some(Codecs.JoinEscaped(items)), Some(Codecs.JoinEscaped([x, y])))
            == (if exists i | i in items :: ParseIf(l, i) == Some(true) then x else y, NoChange)
  {
    hide *;
    BranchOfList(l, items, false, x, y);
    MeansAll(l, name);
    ListsDecide(l, env, vars, call, name, Codecs.JoinEscaped(items), Codecs.JoinEscaped([x, y]));
  }

  /** `{not:a==b}` says "true" when the texts differ and "false" when they agree. */
  lemma NotDenies(l: Library, env: Env, vars: map<string, string>, call: nat, name: string, a: string, b: string)
    requires Means(l, name, {"not"}) && Free(a, "!=<>") && Free(b, "!=<>")
    requires l.lower(Trim(l, a + "==" + b)) !in {"true", "false"}
    ensures Decide(l, env, vars, call, name, None, Some(a + "==" + b))
            == (if Trim(l, a) == Trim(l, b) then "false" else "true", NoChange)
  {
    hide *;
    EqualityIsDecided(l, a, b, true);
    MeansOne(l, name);
    OnesDecide(l, env, vars, call, name, None, Some(a + "==" + b));
    Negations();
  }

  /** `{choose:a|b}` gives the item its roll names, trimmed. */
  lemma ChooseGivesItem(l: Library, env: Env, vars: map<string, string>, call: nat, name: string,
                        parameter: Option<string>, items: seq<string>)
    requires Means(l, name, {"choose"})
    requires items != [] && forall i | 0 <= i < |items| - 1 :: !Codecs.EndsInBackslash(items[i])
    ensures var roll := l.roll(call, if parameter == Some("") then None else parameter);
            Decide(l, env, vars, call, name, parameter, Some(Codecs.JoinEscaped(items)))
            == (Trim(l, items[roll % |items|]), NoChange)
  {
    hide *;
    Codecs.SplitUndoesJoinIff(items);
    MeansOne(l, name);
    OnesDecide(l, env, vars, call, name, parameter, Some(Codecs.JoinEscaped(items)));
    ChosenIs(l, Codecs.JoinEscaped(items), items, parameter, l.roll(call, Random.Seed(parameter)));
  }

  /** What a guarded block does when its condition is a comparison of texts. */
  lemma GuardsDecide(l: Library, env: Env, vars: map<string, string>, call: nat, name: string,
                     a: string, b: string, m: string)
    requires Free(a, "!=<>") && Free(b, "!=<>")
    requires l.lower(Trim(l, a + "==" + b)) !in {"true", "false"}
    ensures var (text, change) := Decide(l, env, vars, call, name, Some(a + "==" + b), Some(m));
            var equal := Trim(l, a) == Trim(l, b);
            && (Means(l, name, {"stop", "halt"}) ==> text == "" && change == if equal then StopWith(m) else NoChange)
            && (Means(l, name, {"break", "short", "shortcircuit"}) ==>
                  text == "" && change == if equal then BreakWith(m) else NoChange)
            && (Means(l, name, {"delete", "del"}) ==>
                  text == "" && change == if equal then Emit(Effect("delete", None, None)) else NoChange)
  {
    hide *;
    EqualityIsDecided(l, a, b, true);
    MeansHalt(l, name);
    MeansOne(l, name);
    if Named(name) {
      OnesDecide(l, env, vars, call, name, Some(a + "==" + b), Some(m));
    }
    OptionOf(a + "==" + b, m);
  }

  /** Without a condition `delete` always deletes; `stop` and `break` then do nothing. */
  lemma UnguardedDecide(l: Library, env: Env, vars: map<string, string>, call: nat, name: string, payload: Option<string>)
    requires l.lower(Trim(l, "")) == ""
    ensures var d := Decide(l, env, vars, call, name, None, payload);
            && (Means(l, name, {"delete", "del"}) ==> d == ("", Emit(Effect("delete", None, None))))
            && (Means(l, name, {"stop", "halt"}) || Means(l, name, {"break", "short", "shortcircuit"}) ==> d == ("", NoChange))
  {
    hide *;
    NothingIsNoCondition(l);
    MeansHalt(l, name);
    MeansOne(l, name);
    if Named(name) {
      OnesDecide(l, env, vars, call, name, None, payload);
    }
    OptionOf("", "");
  }

  lemma NothingIsNoCondition(l: Library)
    requires l.lower(Trim(l, "")) == ""
    ensures ParseIf(l, "").None?
  {
    NoSigns(l);
    hide CompareFrom;
  }

  lemma OptionOf(p: string, q: string)
    ensures Some(p).GetOr("") == p && Some(q).GetOr("") == q && None.GetOr("") == ""
  {
  }

  lemma Negations()
    ensures Truth(Negated(Some(true))) == "false" && Truth(Negated(Some(false))) == "true"
    ensures forall q: string :: Some(q).GetOr("") == q
  {
  }

  lemma ChosenIs(l: Library, q: string, items: seq<string>, parameter: Option<string>, roll: nat)
    requires items != [] && Codecs.SplitPipe(q) == items
    ensures Chosen(l, Some(q).GetOr(""), roll) == Trim(l, items[roll % |items|])
    ensures Random.Seed(parameter) == if parameter == Some("") then None else parameter
  {
  }

  lemma NoSigns(l: Library)
    ensures CompareFrom(l, "", 0).None?
  {
    forall k: nat | k < 6 ensures SplitAtFirst("", Operator(k)).None? {
      NotFound("", Operator(k));
    }
    hide SplitAtFirst, Operator;
    assert CompareFrom(l, "", 5).None? && CompareFrom(l, "", 4).None? && CompareFrom(l, "", 3).None?;
    assert CompareFrom(l, "", 2).None? && CompareFrom(l, "", 1).None?;
  }

  lemma MeansQuiet(l: Library, name: string)
    ensures Means(l, name, {"=", "let", "var"}) ==> KindOf(l.lower(name)) == Assignment && Named(name)
    ensures Means(l, name, {"//", "/", "comment", "debug"}) ==> KindOf(l.lower(name)) == Silent && Named(name)
    ensures Means(l, name, {"python", "py", "command", "c", "com"}) ==> KindOf(l.lower(name)) == Silent && Named(name)
    ensures Means(l, name, {"require", "whitelist", "blacklist", "override", "bypass"}) ==>
              KindOf(l.lower(name)) == Silent && Named(name)
  {
  }

  lemma QuietDecide(l: Library, env: Env, vars: map<string, string>, call: nat, name: string,
                    parameter: Option<string>, payload: Option<string>)
    requires Named(name)
    ensures var k, d := KindOf(l.lower(name)), Decide(l, env, vars, call, name, parameter, payload);
            && (k == Silent ==> d == ("", NoChange))
            && (k == Assignment ==>
                  d == ("", if parameter.GetOr("") == "" then NoChange else SetVar(parameter.GetOr(""), payload.GetOr(""))))
  {
    hide KindOf, ParseIf, ParseIntoOutput, ParseListAll, Lookup, RandomText, Chosen;
  }

  /** `{=(x):v}`, `{let(x):v}`, `{var(x):v}` and `{$x:v}` assign, unless there is no name;
      without a payload they assign the empty text. None of them gives text. */
  lemma AssignsIff(l: Library, env: Env, vars: map<string, string>, call: nat, name: string, x: string, payload: Option<string>)
    ensures var change := if x == "" then NoChange else SetVar(x, payload.GetOr(""));
            && Decide(l, env, vars, call, "$" + x, None, payload) == ("", change)
            && (Means(l, name, {"=", "let", "var"}) ==>
                  Decide(l, env, vars, call, name, Some(x), payload) == ("", change))
  {
    DollarAssigns(l, env, vars, call, x, payload);
    hide *;
    MeansQuiet(l, name);
    if Named(name) {
      QuietDecide(l, env, vars, call, name, Some(x), payload);
    }
    OptionOf(x, "");
  }

  lemma DollarAssigns(l: Library, env: Env, vars: map<string, string>, call: nat, x: string, payload: Option<string>)
    ensures Decide(l, env, vars, call, "$" + x, None, payload)
            == ("", if x == "" then NoChange else SetVar(x, payload.GetOr("")))
  {
    hide KindOf, ParseIf, ParseIntoOutput, ParseListAll, Lookup, RandomText, Chosen;
    assert ("$" + x)[0] == '$' && ("$" + x)[1..] == x;
  }

  /** Comments, and the blocks that would run code or commands, do nothing at all. */
  lemma SilentBlocksDoNothing(l: Library, env: Env, vars: map<string, string>, call: nat, name: string,
                              parameter: Option<string>, payload: Option<string>)
    requires || Means(l, name, {"//", "/", "comment", "debug"})
             || Means(l, name, {"python", "py", "command", "c", "com"})
             || Means(l, name, {"require", "whitelist", "blacklist", "override", "bypass"})
    ensures Decide(l, env, vars, call, name, parameter, payload) == ("", NoChange)
  {
    hide *;
    MeansQuiet(l, name);
    QuietDecide(l, env, vars, call, name, parameter, payload);
  }

  /** `{2}` is the second word of the arguments, `{0}` the last, and a number past the end
      gives them all; a user's own `args` is read instead when there is one. */
  lemma PositionalIsItem(l: Library, env: Env, vars: map<string, string>, call: nat, n: string)
    requires n != "" && OnlyDigits(n) && Trim(l, n) == n && KindOf(l.lower(n)) == Other
    ensures var text := if "args" in vars then vars["args"] else env.args;
            var words := SplitOn(text, " ");
            Decide(l, env, vars, call, n, None, None)
            == (if Decimal(n) == 0 then words[|words| - 1]
                else if Decimal(n) <= |words| && Decimal(n) < 0x8000_0000_0000_0000 then words[Decimal(n) - 1] else text, NoChange)
  {
    var text := if "args" in vars then vars["args"] else env.args;
    FirstIsDigit(n);
    PositionalLooksUp(l, env, vars, call, n, text);
    hide *;
    IndexIs(l, text, n, None);
    SplitterIsSpace();
    DigitsIndexed(text, SplitOn(text, Splitter(None)), Splitter(None), n);
  }

  lemma SplitterIsSpace()
    ensures Splitter(None) == " "
  {
  }

  lemma DigitFirst(n: string)
    requires n != "" && OnlyDigits(n)
    ensures Named(n) && n[0] != '#'
  {
  }

  lemma OtherLooksUp(l: Library, env: Env, vars: map<string, string>, call: nat, name: string,
                     parameter: Option<string>, payload: Option<string>)
    requires Named(name) && KindOf(l.lower(name)) == Other
    ensures Decide(l, env, vars, call, name, parameter, payload)
            == (Lookup(l, env, vars, call, name, parameter, payload), NoChange)
  {
    hide KindOf, ParseIf, ParseIntoOutput, ParseListAll, RandomText, Chosen, Lookup;
  }

  lemma ArgsAreIndexed(l: Library, env: Env, vars: map<string, string>, call: nat, n: string, text: string)
    requires text == if "args" in vars then vars["args"] else env.args
    ensures GetVar(l, env, vars, call, "args", Some(n), None) == Some(StringIndex(l, text, Some(n), None))
  {
    hide StringIndex;
  }

  lemma DigitsLookUp(l: Library, env: Env, vars: map<string, string>, call: nat, n: string, text: string)
    requires n != "" && OnlyDigits(n) && n[0] != '#'
    requires GetVar(l, env, vars, call, "args", Some(n), None) == Some(StringIndex(l, text, Some(n), None))
    ensures Lookup(l, env, vars, call, n, None, None) == StringIndex(l, text, Some(n), None)
  {
    hide StringIndex, GetVar, OnlyDigits, RandomText;
  }

  lemma PositionalLooksUp(l: Library, env: Env, vars: map<string, string>, call: nat, n: string, text: string)
    requires n != "" && OnlyDigits(n) && KindOf(l.lower(n)) == Other
    requires text == if "args" in vars then vars["args"] else env.args
    ensures Decide(l, env, vars, call, n, None, None) == (StringIndex(l, text, Some(n), None), NoChange)
  {
    hide *;
    DigitFirst(n);
    OtherLooksUp(l, env, vars, call, n, None, None);
    ArgsAreIndexed(l, env, vars, call, n, text);
    DigitsLookUp(l, env, vars, call, n, text);
  }

  // ---- conditions and branches --------------------------------------------

  /** A condition without a comparison sign is one of the two words, or none at all. */
  lemma WordsAreJudged(l: Library, s: string)
    requires Free(s, "!=<>")
    ensures var word := l.lower(Trim(l, s));
            ParseIf(l, s) == if word == "true" then Some(true) else if word == "false" then Some(false) else None
  {
    NoSignsIn(l, s);
    hide CompareFrom, Trim;
  }

  lemma NoSignsIn(l: Library, s: string)
    requires Free(s, "!=<>")
    ensures CompareFrom(l, s, 0).None?
  {
    NotFound(s, "!=");
    NotFound(s, "==");
    NotFound(s, ">=");
    NotFound(s, "<=");
    NotFound(s, ">");
    NotFound(s, "<");
    hide SplitAtFirst, Trim;
    assert CompareFrom(l, s, 5).None? && CompareFrom(l, s, 4).None? && CompareFrom(l, s, 3).None?;
    assert CompareFrom(l, s, 2).None? && CompareFrom(l, s, 1).None?;
  }

  /** A payload that is not two branches is shown as it stands when the condition holds, and
      not at all when it does not. */
  lemma NotTwoBranches(parts: seq<string>, result: Option<bool>)
    requires parts != [] && |parts| != 2 && forall i | 0 <= i < |parts| - 1 :: !Codecs.EndsInBackslash(parts[i])
    ensures var q := Codecs.JoinEscaped(parts);
            ParseIntoOutput(q, result) == if result == Some(true) then q else ""
  {
    Codecs.SplitUndoesJoinIff(parts);
    hide Codecs.JoinEscaped, Codecs.SplitPipe;
  }

  // ---- blocks that give text or act ---------------------------------------

  lemma MeansText(l: Library, name: string)
    ensures Means(l, name, {"random", "rand"}) ==> KindOf(l.lower(name)) == Weighted && Named(name)
    ensures Means(l, name, {"embed", "react", "redirect", "cd", "cooldown"}) ==>
              KindOf(l.lower(name)) == Effectful && Named(name)
  {
  }

  lemma MeansRendered(l: Library, name: string)
    ensures Means(l, name, {"range", "rangef", "ord", "upper", "lower", "len", "length", "count"}) ==>
              KindOf(l.lower(name)) == Rendered && Named(name)
    ensures Means(l, name, {"replace", "sub", "urlencode", "urldecode", "unix", "strf", "strftime"}) ==>
              KindOf(l.lower(name)) == Rendered && Named(name)
  {
  }

  lemma TextsDecide(l: Library, env: Env, vars: map<string, string>, call: nat, name: string,
                    parameter: Option<string>, payload: Option<string>)
    requires Named(name)
    ensures var k, d := KindOf(l.lower(name)), Decide(l, env, vars, call, name, parameter, payload);
            && (k == Weighted ==> d == (RandomText(l, call, parameter, payload.GetOr("")), NoChange))
            && (k == Rendered ==> d == (l.render(call, name, parameter, payload), NoChange))
            && (k == Effectful ==> d == ("", Emit(Effect(l.lower(name), parameter, payload))))
  {
    hide KindOf, ParseIf, ParseIntoOutput, ParseListAll, Lookup, RandomText, Chosen;
  }

  /** `{random:...}`, `{rand:...}` and `{#:...}` give an entry of the expanded list, and a
      sum that wraps to nothing gives the first item to a seed and no text without one. A
      `#` in front of anything else is a comment. */
  lemma RandomGivesPick(l: Library, env: Env, vars: map<string, string>, call: nat, name: string,
                        parameter: Option<string>, q: string)
    requires (name == "#" && KindOf(l.lower(name)) == Other) || Means(l, name, {"random", "rand"})
    ensures var seed := if parameter == Some("") then None else parameter;
            var cs := Random.Choices(l, q);
            var picks := Random.Picks(cs);
            Decide(l, env, vars, call, name, parameter, Some(q)) ==
              (if picks != [] then picks[l.roll(call, seed) % |picks|] else if seed.Some? then cs[0].item else "", NoChange)
  {
    Random.PickedIs(l, q, Random.Seed(parameter), l.roll(call, Random.Seed(parameter)));
    MeansText(l, name);
    if Means(l, name, {"random", "rand"}) {
      TextsDecide(l, env, vars, call, name, parameter, Some(q));
    } else {
      OtherLooksUp(l, env, vars, call, name, parameter, Some(q));
      HashIsRandom(l, env, vars, call, parameter, q);
    }
    hide Random.Picks, Random.Choices, Random.Picked, Decide, Lookup, KindOf, Means;
  }

  lemma HashIsRandom(l: Library, env: Env, vars: map<string, string>, call: nat, parameter: Option<string>, q: string)
    ensures Lookup(l, env, vars, call, "#", parameter, Some(q)) == RandomText(l, call, parameter, q)
  {
  }

  lemma HashComments(l: Library, env: Env, vars: map<string, string>, call: nat, name: string,
                     parameter: Option<string>, payload: Option<string>)
    requires name != "" && name[0] == '#' && KindOf(l.lower(name)) == Other && (name == "#" ==> payload.None?)
    ensures Decide(l, env, vars, call, name, parameter, payload) == ("", NoChange)
  {
    OtherLooksUp(l, env, vars, call, name, parameter, payload);
    hide KindOf, Decide, RandomText, GetVar;
  }

  /** A block that acts leaves no text and one more effect, with its resolved halves, behind
      those before it; a block that computes gives its text and changes nothing. */
  lemma ActsAndTexts(l: Library, env: Env, site: Site, name: string, p: Option<string>, q: Option<string>, st: State)
    ensures var (text, st') := Process(Standard(l, env), site, name, p, q, st);
            && (Means(l, name, {"embed", "react", "redirect", "cd", "cooldown"}) ==>
                  text == "" && st'.effects == st.effects + [Effect(l.lower(name), p, q)] && st'.vars == st.vars)
            && (Means(l, name, {"delete", "del"}) && p.None? ==>
                  text == "" && st'.effects == st.effects + [Effect("delete", None, None)] && st'.vars == st.vars)
            && (Means(l, name, {"range", "rangef", "ord", "upper", "lower", "len", "length", "count"})
                || Means(l, name, {"replace", "sub", "urlencode", "urldecode", "unix", "strf", "strftime"}) ==>
                  text == l.render(|st.log|, name, p, q) && st'.effects == st.effects && st'.vars == st.vars)
  {
    MeansText(l, name);
    MeansRendered(l, name);
    MeansOne(l, name);
    if Named(name) {
      TextsDecide(l, env, st.vars, |st.log|, name, p, q);
      OnesDecide(l, env, st.vars, |st.log|, name, p, q);
    }
    hide Decide, KindOf, Means, ParseIf;
  }

  // ---- stop and break in a template ---------------------------------------

  /** `{stop(a==b):m}t` and `{break(a==b):m}t`. */
  function Guarded(name: string, a: string, b: string, m: string, t: string): seq<Token> {
    [Block(name, Some(a + "==" + b), Some(m)), Literal(t)]
  }

  lemma GuardedIsRead(name: string, a: string, b: string, m: string, t: string)
    requires name != "" && Free(name, "{}():\\") && Free(a, "{}():\\") && Free(b, "{}():\\") && Free(m, "{}") && t != ""
    ensures Tokenized(Print(Guarded(name, a, b, m, t))) == Guarded(name, a, b, m, t)
  {
    var tokens, c := Guarded(name, a, b, m, t), a + "==" + b;
    PlainNameIsPlain(c, 0);
    PlainNameIsPlain(name, 0);
    assert name[0] in name;
    GuardedInner(name, c, m);
    FlatDepth(Inner(name, Some(c), Some(m)));
    SyntaxIsPrintable(name, Some(c), Some(m));
    hide PlainHead, ParenBalanced, Balanced, Inner;
    GuardedCanonical(tokens);
    PrintThenTokenize(tokens);
  }

  lemma GuardedCanonical(tokens: seq<Token>)
    requires |tokens| == 2 && Printable(tokens[0]) && tokens[0].Block? && tokens[1].Literal? && tokens[1].text != ""
    ensures Canonical(tokens)
  {
    assert tokens[1..] == [tokens[1]] && tokens[1..][1..] == [];
    assert Canonical(tokens[1..][1..]) && Canonical(tokens[1..]);
  }

  lemma GuardedInner(name: string, c: string, m: string)
    requires Free(name, "{}") && Free(c, "{}") && Free(m, "{}")
    ensures Free(Inner(name, Some(c), Some(m)), "{}")
  {
    var inner := Inner(name, Some(c), Some(m));
    forall x | x in inner ensures x !in "{}" {
      assert inner == name + ("(" + (c + (")" + (":" + m))));
    }
  }

  lemma BlockThenText(w: World, tokens: seq<Token>, st: State, st1: State, t: string, n: nat)
    requires |tokens| == 2 && WellShaped(tokens, n) && tokens[0].Block? && tokens[1] == Literal(t)
    requires !st.stopped && st.nodes + 1 <= MAX_NODES
    requires TokenStep(w, tokens[0], 0, [], st, n) == ("", st1)
    ensures Level(w, tokens, 0, [], 0, st, n) == (if st1.stopped then "" else t, st1)
  {
    hide TokenStep;
    assert tokens[1..][0] == tokens[1] && tokens[1..][1..] == [];
    assert TokenStep(w, Literal(t), 1, [], st1, n) == (t, st1) by { OneText(w, t, st1, n); }
    assert Level(w, [], 2, [], 0 + ByteLen(t), st1, n) == ("", st1);
    assert t + "" == t && "" + t == t;
    assert !st1.stopped ==> Level(w, tokens[1..], 1, [], 0, st1, n) == (t, st1);
    assert st1.stopped ==> Level(w, tokens[1..], 1, [], 0, st1, n) == ("", st1);
  }

  lemma OneText(w: World, t: string, st: State, n: nat)
    requires Below(Literal(t), n)
    ensures TokenStep(w, Literal(t), 1, [], st, n) == (t, st)
  {
  }

  lemma GuardedStep(l: Library, env: Env, name: string, c: string, m: string, vars: map<string, string>, n: nat)
    requires Free(c, "{}") && Free(m, "{}") && Below(Block(name, Some(c), Some(m)), n)
    ensures TokenStep(Standard(l, env), Block(name, Some(c), Some(m)), 0, [], Fresh(vars), n)
            == Process(Standard(l, env), Site([], 0), name, Some(c), Some(m), Fresh(vars).(nodes := 1))
  {
    var w, begun := Standard(l, env), Fresh(vars).(nodes := 1);
    NothingToEscape(c);
    NothingToEscape(m);
    EscapedTextRendersItself(w, c, [] + [Slot(0, false)], begun);
    EscapedTextRendersItself(w, m, [] + [Slot(0, true)], begun);
    hide Standard;
    BothHalvesStep(w, name, c, m, 0, [], Fresh(vars), n);
    hide *;
    assert Fresh(vars).(nodes := 1) == Fresh(vars).(nodes := Fresh(vars).nodes + 1) by { FreshHasNoNodes(vars); }
  }

  lemma FreshHasNoNodes(vars: map<string, string>)
    ensures Fresh(vars).nodes == 0
  {
  }

  /** The state a guarded block leaves in a fresh run. */
  lemma GuardedDispatch(l: Library, env: Env, name: string, a: string, b: string, m: string, vars: map<string, string>)
      returns (st1: State)
    requires l.lower(name) == name && name in {"stop", "halt", "break", "short", "shortcircuit"}
    requires Free(a, "!=<>") && Free(b, "!=<>") && l.lower(Trim(l, a + "==" + b)) !in {"true", "false"}
    ensures Process(Standard(l, env), Site([], 0), name, Some(a + "==" + b), Some(m), Fresh(vars).(nodes := 1)) == ("", st1)
    ensures var equal := Trim(l, a) == Trim(l, b);
            && st1.vars == vars && (st1.stopped <==> equal && name in {"stop", "halt"})
            && (st1.stopped ==> st1.content == m)
            && st1.breakBody == if equal && name !in {"stop", "halt"} then Some(m) else None
  {
    GuardsDecide(l, env, vars, 0, name, a, b, m);
    hide Decide, Trim;
    st1 := Process(Standard(l, env), Site([], 0), name, Some(a + "==" + b), Some(m), Fresh(vars).(nodes := 1)).1;
  }

  lemma Opens(w: World, s: string, tokens: seq<Token>, st: State)
    requires Tokenized(s) == tokens && WellShaped(tokens, |s|)
    ensures Resolve(w, s, [], st) == Level(w, tokens, 0, [], 0, st, |s|)
  {
    hide Level;
  }

  lemma BracesFree(s: string)
    requires Free(s, "{}():\\!=<>")
    ensures Free(s, "{}") && Free(s, "!=<>") && Free(s, "{}():\\")
  {
  }

  /** What the user sees of `{stop(a==b):m}t` and of `{break(a==b):m}t`: `m` alone when the
      texts agree, and `t` when they do not. Only `stop` halts the run. */
  lemma GuardedTemplate(l: Library, env: Env, name: string, a: string, b: string, m: string, t: string,
                        vars: map<string, string>)
    requires l.lower(name) == name && name in {"stop", "halt", "break", "short", "shortcircuit"}
    requires Free(a, "{}():\\!=<>") && Free(b, "{}():\\!=<>") && Free(m, "{}") && t != ""
    requires l.lower(Trim(l, a + "==" + b)) !in {"true", "false"}
    ensures var (text, st) := Resolve(Standard(l, env), Print(Guarded(name, a, b, m, t)), [], Fresh(vars));
            var equal := Trim(l, a) == Trim(l, b);
            && Finish(text, st) == (if equal then m else t)
            && (st.stopped <==> equal && name in {"stop", "halt"})
            && st.vars == vars
  {
    var w, tokens := Standard(l, env), Guarded(name, a, b, m, t);
    var s, block := Print(tokens), Block(name, Some(a + "==" + b), Some(m));
    PlainKeyword(name);
    hide *;
    BracesFree(a);
    BracesFree(b);
    GuardedIsRead(name, a, b, m, t);
    GuardedShape(s, name, a, b, m, t);
    Opens(w, s, tokens, Fresh(vars));
    SidesFree(a, b);
    GuardedStep(l, env, name, a + "==" + b, m, vars, |s|);
    var st1 := GuardedDispatch(l, env, name, a, b, m, vars);
    GuardedLevel(w, name, a, b, m, t, vars, st1, |s|);
    GuardedFinish(st1, m, t);
  }

  lemma PlainKeyword(name: string)
    requires name in {"stop", "halt", "break", "short", "shortcircuit"}
    ensures name != "" && Free(name, "{}():\\")
  {
    assert Free("stop", "{}():\\") && Free("halt", "{}():\\");
    assert Free("break", "{}():\\") && Free("short", "{}():\\") && Free("shortcircuit", "{}():\\");
    hide Free;
  }

  lemma SidesFree(a: string, b: string)
    requires Free(a, "{}") && Free(b, "{}")
    ensures Free(a + "==" + b, "{}")
  {
  }

  lemma GuardedShape(s: string, name: string, a: string, b: string, m: string, t: string)
    requires Tokenized(s) == Guarded(name, a, b, m, t)
    ensures WellShaped(Guarded(name, a, b, m, t), |s|) && Below(Block(name, Some(a + "==" + b), Some(m)), |s|)
  {
    TokensShape(s, 0, "");
    hide Tokens;
    assert Guarded(name, a, b, m, t)[0] == Block(name, Some(a + "==" + b), Some(m));
  }

  lemma GuardedLevel(w: World, name: string, a: string, b: string, m: string, t: string, vars: map<string, string>,
                     st1: State, n: nat)
    requires WellShaped(Guarded(name, a, b, m, t), n) && Below(Block(name, Some(a + "==" + b), Some(m)), n)
    requires TokenStep(w, Block(name, Some(a + "==" + b), Some(m)), 0, [], Fresh(vars), n) == ("", st1)
    ensures Level(w, Guarded(name, a, b, m, t), 0, [], 0, Fresh(vars), n) == (if st1.stopped then "" else t, st1)
  {
    hide TokenStep, Level;
    BlockThenText(w, Guarded(name, a, b, m, t), Fresh(vars), st1, t, n);
  }

  lemma GuardedFinish(st1: State, m: string, t: string)
    ensures Finish(if st1.stopped then "" else t, st1) ==
              if st1.stopped then st1.content else if st1.breakBody.Some? then st1.breakBody.value else t
  {
  }
}
