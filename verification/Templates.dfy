/** Whole templates and conditions: what the pieces of the interpreter say together. */
module Templates {
  import opened Base
  import opened Context
  import opened Lexer
  import opened Engine
  import opened Blocks
  import Codecs

  predicate Free(s: string, chars: string) {
    forall c | c in s :: c !in chars
  }

  // ---- conditions ---------------------------------------------------------

  /** Texts without comparison signs are compared as texts, white space around them apart. */
  lemma EqualityIsDecided(l: Library, a: string, b: string, equal: bool)
    requires Free(a, "!=<>") && Free(b, "!=<>")
    requires var s := a + (if equal then "==" else "!=") + b; l.lower(Trim(l, s)) !in {"true", "false"}
    ensures var s := a + (if equal then "==" else "!=") + b;
            ParseIf(l, s) == Some((Trim(l, a) == Trim(l, b)) == equal)
  {
    var op := if equal then "==" else "!=";
    var s := a + op + b;
    hide Trim, Find;
    assert op[0] !in a;
    FindFirst(a, op, b, 0);
    assert s[..|a|] == a && s[|a| + 2..] == b;
    if equal {
      assert '!' !in s;
      FindNone(s, "!=", 0);
      assert CompareFrom(l, s, 0) == CompareFrom(l, s, 1);
    }
  }

  /** `{if(a==b):x|y}` yields `x` when the texts agree and `y` when they do not. */
  lemma ConditionalChooses(l: Library, env: Env, vars: map<string, string>, call: nat,
                           a: string, b: string, x: string, y: string)
    requires l.lower("if") == "if" && Free(a, "!=<>") && Free(b, "!=<>")
    requires l.lower(Trim(l, a + "==" + b)) !in {"true", "false"}
    requires !Codecs.EndsInBackslash(x)
    ensures Decide(l, env, vars, call, "if", Some(a + "==" + b), Some(Codecs.JoinEscaped([x, y])))
            == (if Trim(l, a) == Trim(l, b) then x else y, NoChange)
  {
    EqualityIsDecided(l, a, b, true);
    BranchIsChosen(x, y, Some(Trim(l, a) == Trim(l, b)));
    hide ParseIf, ParseIntoOutput, Trim, Lookup, ParseListAll, Codecs.JoinEscaped;
  }

  /** `{all(...)}` and `{any(...)}` over escaped conditions judge exactly those conditions. */
  lemma ListIsJudgedByItems(l: Library, items: seq<string>, all: bool)
    requires items != [] && forall i | 0 <= i < |items| - 1 :: !Codecs.EndsInBackslash(items[i])
    ensures ParseListAll(l, Codecs.JoinEscaped(items), all) ==
              Some(if all then forall i | i in items :: ParseIf(l, i) == Some(true)
                   else exists i | i in items :: ParseIf(l, i) == Some(true))
  {
    Codecs.SplitUndoesJoinIff(items);
    hide ParseIf, Codecs.JoinEscaped, Codecs.SplitPipe;
  }

  // ---- assign, then read --------------------------------------------------

  /** A name that is looked up as a variable when it stands alone in braces. */
  predicate VariableName(l: Library, x: string) {
    && x != "" && Free(x, "{}():\\") && x[0] !in "$#" && !OnlyDigits(x)
    && KindOf(l.lower(x)) == Other
  }

  /** What was assigned under a name is what a block of that name gives. */
  lemma AssignedIsRead(l: Library, env: Env, vars: map<string, string>, call: nat, x: string, v: string)
    requires l.lower("=") == "=" && VariableName(l, x)
    ensures Decide(l, env, vars, call, "=", Some(x), Some(v)) == ("", SetVar(x, v))
    ensures Decide(l, env, vars[x := v], call, x, None, None) == (v, NoChange)
  {
    hide OnlyDigits;
    assert KindOf("=") == Assignment;
    assert GetVar(l, env, vars[x := v], call, x, None, None) == Some(v);
  }

  lemma {:induction false} NothingToEscape(s: string)
    requires Free(s, "{}")
    ensures Escape(s) == s
  {
    if s != "" {
      NothingToEscape(s[1..]);
      HeadAndTail(s);
    }
  }

  lemma {:induction false} PlainNameIsPlain(x: string, i: nat)
    requires i <= |x| && Free(x, "{}():\\")
    ensures PlainHead(x, i) && ParenBalanced(x, i, 1)
    decreases |x| - i
  {
    if i < |x| {
      assert x[i] in x;
      PlainNameIsPlain(x, i + 1);
    }
  }

  lemma {:induction false} FlatDepth(s: string)
    requires Free(s, "{}")
    ensures Balanced(s)
  {
    forall k | 0 <= k <= |s| ensures Depth(s[..k]) == 0 {
      FlatPrefix(s, k);
    }
    assert s[..|s|] == s;
  }

  lemma {:induction false} FlatPrefix(s: string, k: nat)
    requires Free(s, "{}") && k <= |s|
    ensures Depth(s[..k]) == 0
  {
    if k > 0 {
      FlatPrefix(s, k - 1);
      DepthStep(s, k - 1);
      assert s[k - 1] in s;
    } else {
      assert s[..0] == "";
    }
  }

  // ---- a brace that belongs to no block -----------------------------------

  lemma {:induction false} NoClose(s: string, i: nat, depth: nat)
    requires i <= |s| && depth >= 1 && forall k | i <= k < |s| :: s[k] != '}'
    ensures CloseFrom(s, i, depth) == |s|
    decreases |s| - i
  {
    if i < |s| {
      NoClose(s, i + 1, depth + Delta(s[i]));
    }
  }

  lemma PlainTextIsPassed(s: string, i: nat, text: string, rest: string, pending: string)
    requires i <= |s| && s[i..] == text + rest && Free(text, "{}")
    ensures |rest| <= |s| && Tokens(s, i, pending) == Tokens(s, |s| - |rest|, pending + text)
  {
    NothingToEscape(text);
    EscapedTextIsRead(s, i, text, rest, pending);
  }

  lemma LoneOpen(s: string, i: nat, b: string, pending: string)
    requires i < |s| && s[i] == '{' && s[i + 1..] == b && Free(b, "{}")
    ensures Tokens(s, i, pending) == [Literal(pending + s[i..])]
  {
    assert forall k | i < k < |s| :: s[k] == b[k - i - 1] && s[k] in b;
    NoClose(s, i + 1, 1);
    hide CloseFrom;
  }

  lemma LoneClose(s: string, i: nat, b: string, pending: string)
    requires i < |s| && s[i] == '}' && s[i + 1..] == b && Free(b, "{}")
    ensures Tokens(s, i, pending) == [Literal(pending + "}" + b)]
  {
    assert i + 1 < |s| ==> s[i + 1] == b[0] && b[0] in b;
    assert Tokens(s, i, pending) == Tokens(s, i + 1, pending + "}");
    PlainTextIsPassed(s, i + 1, b, "", pending + "}") by { assert b + "" == b; }
  }

  lemma ThreeParts(a: string, brace: char, b: string)
    ensures var s, i := a + [brace] + b, |a|;
            i < |s| && s[0..] == a + ([brace] + b) && s[i] == brace && s[i..] == [brace] + b && s[i + 1..] == b
            && a + s[i..] == s && |s| - |[brace] + b| == i && "" + a == a
  {
  }

  /** A brace that is never closed, or closes nothing, is text like what is around it. */
  lemma LoneBraceIsText(a: string, brace: char, b: string)
    requires Free(a, "{}") && Free(b, "{}") && brace in "{}"
    ensures Tokenized(a + [brace] + b) == [Literal(a + [brace] + b)]
  {
    var s := a + [brace] + b;
    ThreeParts(a, brace, b);
    hide Tokens, Free;
    PlainTextIsPassed(s, 0, a, [brace] + b, "");
    if brace == '{' {
      LoneOpen(s, |a|, b, a);
    } else {
      LoneClose(s, |a|, b, a);
    }
  }

  lemma LoneBraceRendersItself(w: World, a: string, brace: char, b: string, path: Path, st: State)
    requires Free(a, "{}") && Free(b, "{}") && brace in "{}" && |path| <= MAX_DEPTH && !st.stopped
    ensures Resolve(w, a + [brace] + b, path, st) == (a + [brace] + b, st)
  {
    var s := a + [brace] + b;
    TokensShape(s, 0, "");
    LoneBraceIsText(a, brace, b);
    hide Tokens, Level;
    OneLiteralLevel(w, s, path, st, |s|);
  }

  function AssignTokens(x: string, v: string): seq<Token> {
    [Block("=", Some(x), Some(v)), Block(x, None, None)]
  }

  function AssignTemplate(x: string, v: string): string {
    ("{=(" + x + "):" + v + "}") + ("{" + x + "}")
  }

  lemma AssignIsPrintable(x: string, v: string)
    requires Free(x, "{}():\\") && Free(v, "{}")
    ensures Printable(Block("=", Some(x), Some(v)))
  {
    PlainNameIsPlain(x, 0);
    PlainNameIsPlain("=", 0);
    var inner := Inner("=", Some(x), Some(v));
    forall c | c in inner ensures c !in "{}" {
      assert inner == "=" + ("(" + (x + (")" + (":" + v))));
    }
    FlatDepth(inner);
    SyntaxIsPrintable("=", Some(x), Some(v));
  }

  lemma NameIsPrintable(x: string)
    requires x != "" && Free(x, "{}():\\")
    ensures Printable(Block(x, None, None))
  {
    PlainNameIsPlain(x, 0);
    assert Inner(x, None, None) == x by { assert x + "" == x; }
    FlatDepth(x);
    assert x[0] in x;
    SyntaxIsPrintable(x, None, None);
  }

  lemma TemplateIsRead(x: string, v: string)
    requires x != "" && Free(x, "{}():\\") && Free(v, "{}")
    ensures Tokenized(AssignTemplate(x, v)) == AssignTokens(x, v)
  {
    var tokens := AssignTokens(x, v);
    AssignIsPrintable(x, v);
    NameIsPrintable(x);
    hide Printable;
    assert tokens[1..] == [Block(x, None, None)] && tokens[1..][1..] == [];
    assert Canonical(tokens[1..]);
    PrintThenTokenize(tokens);
    Printed(x, v);
  }

  lemma Printed(x: string, v: string)
    ensures Print(AssignTokens(x, v)) == AssignTemplate(x, v)
  {
    hide Printable;
    var tokens := AssignTokens(x, v);
    var assign, get := PrintToken(tokens[0]), PrintToken(tokens[1]);
    assert tokens[1..] == [tokens[1]] && tokens[1..][1..] == [];
    assert Print(tokens[1..]) == get + Print([]);
    assert get + "" == get;
    assert Print(tokens) == assign + get;
    PrintedParts(x, v);
  }

  lemma PrintedParts(x: string, v: string)
    ensures PrintToken(Block("=", Some(x), Some(v))) == "{=(" + x + "):" + v + "}"
    ensures PrintToken(Block(x, None, None)) == "{" + x + "}"
  {
    assert x + "" == x;
    var end := ")" + (":" + v);
    assert end == "):" + v;
    assert "=" + ("(" + (x + end)) == "=(" + (x + end);
    Assoc("=(" + x, "):", v);
    Assoc("=(", x, end);
    assert "{" + ("=(" + x + "):" + v) == "{=(" + x + "):" + v;
  }

  /** `{=(x):v}{x}` renders `v`, for every name and every value without braces: through the
      tokenizer, the block parser, both dispatches and the variable lookup. */
  lemma AssignThenRead(l: Library, env: Env, x: string, v: string, path: Path, st: State)
    requires l.lower("=") == "=" && VariableName(l, x) && Free(v, "{}")
    requires |path| < MAX_DEPTH && !st.stopped && st.nodes + 2 <= MAX_NODES
    ensures var (text, st') := Resolve(Standard(l, env), AssignTemplate(x, v), path, st);
            text == v && st'.vars == st.vars[x := v] && st'.nodes == st.nodes + 2 && !st'.stopped
  {
    var w, s := Standard(l, env), AssignTemplate(x, v);
    var tokens, n := AssignTokens(x, v), |s|;
    TokensShape(s, 0, "");
    TemplateIsRead(x, v);
    assert Resolve(w, s, path, st) == Level(w, tokens, 0, path, 0, st, n);
    var st1 := AssignStep(l, env, x, v, path, st, n);
    var st2 := ReadStep(l, env, x, v, path, st1, n);
    TwoSteps(w, tokens, path, st, st1, st2, v, n);
  }

  lemma AssignStep(l: Library, env: Env, x: string, v: string, path: Path, st: State, n: nat) returns (st1: State)
    requires l.lower("=") == "=" && VariableName(l, x) && Free(v, "{}")
    requires |path| < MAX_DEPTH && !st.stopped && st.nodes + 2 <= MAX_NODES
    requires Below(Block("=", Some(x), Some(v)), n)
    ensures TokenStep(Standard(l, env), Block("=", Some(x), Some(v)), 0, path, st, n) == ("", st1)
    ensures st1.vars == st.vars[x := v] && st1.nodes == st.nodes + 1 && !st1.stopped
  {
    hide *;
    var w, begun := Standard(l, env), st.(nodes := st.nodes + 1);
    BracesFree(l, x);
    NothingToEscape(x);
    NothingToEscape(v);
    EscapedTextRendersItself(w, x, path + [Slot(0, false)], begun);
    EscapedTextRendersItself(w, v, path + [Slot(0, true)], begun);
    BothHalvesStep(w, "=", x, v, 0, path, st, n);
    st1 := AssignDispatch(l, env, Site(path, 0), x, v, begun);
  }

  lemma BracesFree(l: Library, x: string)
    requires VariableName(l, x)
    ensures Free(x, "{}")
  {
    hide OnlyDigits, KindOf;
  }

  /** A block whose halves render as themselves is dispatched as it stands. */
  lemma BothHalvesStep(w: World, name: string, x: string, v: string, k: nat, path: Path, st: State, n: nat)
    requires Below(Block(name, Some(x), Some(v)), n) && st.nodes + 1 <= MAX_NODES
    requires var begun := st.(nodes := st.nodes + 1);
             && Resolve(w, x, path + [Slot(k, false)], begun) == (x, begun)
             && Resolve(w, v, path + [Slot(k, true)], begun) == (v, begun)
    ensures TokenStep(w, Block(name, Some(x), Some(v)), k, path, st, n)
            == Process(w, Site(path, k), name, Some(x), Some(v), st.(nodes := st.nodes + 1))
  {
    hide Resolve, Process;
  }

  lemma AssignDispatch(l: Library, env: Env, site: Site, x: string, v: string, st: State) returns (st1: State)
    requires l.lower("=") == "=" && VariableName(l, x)
    ensures Process(Standard(l, env), site, "=", Some(x), Some(v), st) == ("", st1)
    ensures st1.vars == st.vars[x := v] && st1.nodes == st.nodes && st1.stopped == st.stopped
  {
    AssignedIsRead(l, env, st.vars, |st.log|, x, v);
    hide Decide, VariableName;
    st1 := Process(Standard(l, env), site, "=", Some(x), Some(v), st).1;
  }

  lemma ReadStep(l: Library, env: Env, x: string, v: string, path: Path, st: State, n: nat) returns (st1: State)
    requires l.lower("=") == "=" && VariableName(l, x) && x in st.vars && st.vars[x] == v
    requires !st.stopped && st.nodes + 1 <= MAX_NODES
    ensures TokenStep(Standard(l, env), Block(x, None, None), 1, path, st, n) == (v, st1)
    ensures st1.vars == st.vars && st1.nodes == st.nodes + 1 && !st1.stopped
  {
    assert st.vars[x := v] == st.vars;
    AssignedIsRead(l, env, st.vars, |st.log|, x, v);
    hide Resolve, Decide, VariableName;
    st1 := TokenStep(Standard(l, env), Block(x, None, None), 1, path, st, n).1;
  }

  lemma TwoSteps(w: World, tokens: seq<Token>, path: Path, st: State, st1: State, st2: State, v: string, n: nat)
    requires |tokens| == 2 && WellShaped(tokens, n) && tokens[0].Block? && tokens[1].Block?
    requires !st.stopped && !st1.stopped && st1.nodes == st.nodes + 1 && st.nodes + 2 <= MAX_NODES
    requires TokenStep(w, tokens[0], 0, path, st, n) == ("", st1)
    requires Below(tokens[1], n) && TokenStep(w, tokens[1], 1, path, st1, n) == (v, st2)
    ensures Level(w, tokens, 0, path, 0, st, n) == (v, st2)
  {
    hide TokenStep;
    assert tokens[1..][0] == tokens[1] && tokens[1..][1..] == [];
    assert Level(w, [], 2, path, 0 + ByteLen(v), st2, n) == ("", st2);
    assert v + "" == v && "" + v == v;
    assert Level(w, tokens[1..], 1, path, 0, st1, n) == (v, st2);
  }
}
