/** Unknown blocks: when the rendered text shows them as they were written. */
module Verbatim {
  import opened Base
  import opened Context
  import opened Lexer
  import opened Engine
  import opened Blocks
  import opened Templates

  function Braced(content: string): string {
    "{" + content + "}"
  }

  /** A level that is rendered, and has a block to spend. */
  predicate Live(path: Path, st: State) {
    |path| <= MAX_DEPTH && !st.stopped && st.nodes + 1 <= MAX_NODES
  }

  lemma OneBlockIsRead(content: string)
    requires Balanced(content) && !Has(content, 0, '{')
    ensures Tokenized(Braced(content)) == [ParseBlock(content)]
  {
    var s := Braced(content);
    assert s[0..] == "{" + content + "}" + "";
    hide ParseBlock, Balanced;
    InnerIsRead(s, 0, content, "", "");
    assert Tokens(s, |s|, "") == [];
  }

  /** The two halves of the block, rendered, and the state its dispatch finds. */
  function Halves(w: World, content: string, path: Path, st: State): (Option<string>, Option<string>, State) {
    ParseBlockShrinks(content);
    var b, n := ParseBlock(content), |content| + 2;
    var (p, st2) := ResolveOption(w, b.parameter, path + [Slot(0, false)], st.(nodes := st.nodes + 1), n);
    var (q, st3) := ResolveOption(w, b.payload, path + [Slot(0, true)], st2, n);
    (p, q, st3)
  }

  lemma BlockRenders(w: World, content: string, path: Path, st: State)
    requires Balanced(content) && !Has(content, 0, '{') && Live(path, st)
    ensures var (p, q, st3) := Halves(w, content, path, st);
            Resolve(w, Braced(content), path, st)
            == Process(w, Site(path, 0), ParseBlock(content).declaration, p, q, st3)
  {
    var s, b, n := Braced(content), ParseBlock(content), |content| + 2;
    TokensShape(s, 0, "");
    OneBlockIsRead(content);
    assert |s| == n;
    assert Resolve(w, s, path, st) == Level(w, [b], 0, path, 0, st, n);
    hide ParseBlock, Tokenized, Tokens, Resolve, Process, Balanced;
    OneBlockLevel(w, b, path, st, n);
  }

  lemma OneBlockLevel(w: World, b: Token, path: Path, st: State, n: nat)
    requires WellShaped([b], n) && Below(b, n) && !st.stopped && b.Block? && st.nodes + 1 <= MAX_NODES
    ensures Level(w, [b], 0, path, 0, st, n) == TokenStep(w, b, 0, path, st, n)
  {
    hide TokenStep;
    var (text, st') := TokenStep(w, b, 0, path, st, n);
    assert [b][1..] == [];
    assert Level(w, [], 1, path, 0 + ByteLen(text), st', n) == ("", st');
    assert text + "" == text;
  }

  /** The dispatch, once the halves are rendered, puts the block back from them. */
  predicate PutBack(w: World, content: string, path: Path, st: State) {
    var b := ParseBlock(content); var (p, q, st3) := Halves(w, content, path, st);
    w.decide(st3.vars, |st3.log|, b.declaration, p, q).0 == Reconstruct(b.declaration, p, q)
  }

  lemma HalvesKeepShape(w: World, content: string, path: Path, st: State)
    ensures var b := ParseBlock(content); var (p, q, st3) := Halves(w, content, path, st);
            (p.Some? <==> b.parameter.Some?) && (q.Some? <==> b.payload.Some?)
  {
  }

  lemma BracedInjective(a: string, b: string)
    ensures Braced(a) == Braced(b) <==> a == b
  {
    assert Braced(a)[1..|a| + 1] == a && Braced(b)[1..|b| + 1] == b;
  }

  lemma PiecesInjective(d: string, p: string, p': string, x: string, x': string)
    requires |p| == |p'|
    ensures d + ("(" + (p + (")" + x))) == d + ("(" + (p' + (")" + x'))) <==> p == p' && x == x'
  {
    FivePieces(d, '(', p, ')', x);
    FivePieces(d, '(', p', ')', x');
  }

  lemma PayloadInjective(q: Option<string>, q': Option<string>)
    requires q.Some? <==> q'.Some?
    ensures PayloadText(q) == PayloadText(q') <==> q == q'
  {
    if q.Some? {
      assert PayloadText(q)[1..] == q.value && PayloadText(q')[1..] == q'.value;
    }
  }

  lemma NameInjective(d: string, x: string, x': string)
    ensures d + x == d + x' <==> x == x'
  {
    assert (d + x)[|d|..] == x && (d + x')[|d|..] == x';
  }

  /** Changing the halves changes the text, as long as the parameter keeps its length. */
  lemma InnerInjective(d: string, p: Option<string>, q: Option<string>, p': Option<string>, q': Option<string>)
    requires (p.Some? <==> p'.Some?) && (q.Some? <==> q'.Some?) && (p.Some? ==> |p.value| == |p'.value|)
    ensures Inner(d, p, q) == Inner(d, p', q') <==> p == p' && q == q'
  {
    PayloadInjective(q, q');
    hide PayloadText;
    if p.Some? {
      PiecesInjective(d, p.value, p'.value, PayloadText(q), PayloadText(q'));
    } else {
      NameInjective(d, PayloadText(q), PayloadText(q'));
    }
  }

  /** Text dropped behind the parameter is missed, whatever the parameter became at its
      own length. */
  lemma DroppedIsShorter(content: string, p: string)
    requires DropsTail(content)
    ensures var b := ParseBlock(content);
            && b.parameter.Some? && b.payload.None?
            && (|p| == |b.parameter.value| ==> |Inner(b.declaration, Some(p), None)| < |content|)
  {
    hide HeadFrom, ParamFrom;
  }

  /** What stands behind a block's closed parameter: a payload with its colon, or text that
      is dropped. */
  function Behind(content: string): string {
    var b := ParseBlock(content);
    var end := |b.declaration| + (if b.parameter.Some? then |b.parameter.value| else 0) + 2;
    if end <= |content| then content[end..] else ""
  }

  lemma WhereParameterStands(content: string) returns (head: nat, close: nat)
    requires ParseBlock(content).parameter.Some?
    ensures head < close < |content| && content[head] == '(' && content[close] == ')'
    ensures ParseBlock(content).declaration == content[..head]
    ensures ParseBlock(content).parameter.value == content[head + 1..close]
  {
    hide HeadFrom, ParamFrom;
    head := HeadFrom(content, 0);
    close := ParamFrom(content, head + 1, 1);
  }

  lemma ParameterStands(content: string)
    requires ParseBlock(content).parameter.Some?
    ensures var b := ParseBlock(content);
            content == b.declaration + ("(" + (b.parameter.value + (")" + Behind(content))))
  {
    hide ParseBlock;
    var head, close := WhereParameterStands(content);
    assert Behind(content) == content[close + 1..];
    hide *;
    CutTwice(content, head, close);
  }

  lemma CutTwice(content: string, head: nat, close: nat)
    requires head < close < |content| && content[head] == '(' && content[close] == ')'
    ensures content == content[..head] + ("(" + (content[head + 1..close] + (")" + content[close + 1..])))
  {
    var name, p, rest := content[..head], content[head + 1..close], content[close + 1..];
    CutAround(content, head, close);
    assert content == content[..close + 1] + rest;
    Assoc(name + "(" + p, ")", rest);
    Assoc(name + "(", p, ")" + rest);
    Assoc(name, "(", p + (")" + rest));
  }

  /** The longer of the two parameters goes on, behind the shorter, with `)` and the start of
      what followed the shorter. */
  predicate Spells(p: string, x: string, p': string, x': string)
    requires |p| != |p'|
  {
    if |p| < |p'| then p'[..|p| + 1] == p + ")" && x == p'[|p| + 1..] + (")" + x')
    else p[..|p'| + 1] == p' + ")" && x' == p[|p'| + 1..] + (")" + x)
  }

  lemma LongerSpells(p: string, x: string, p': string, x': string)
    requires |p| < |p'|
    ensures p + (")" + x) == p' + (")" + x') <==> Spells(p, x, p', x')
  {
    var a, b, n := p + (")" + x), p' + (")" + x'), |p| + 1;
    assert a[..n] == p + ")" && a[n..] == x;
    assert b[..n] == p'[..n] && b[n..] == p'[n..] + (")" + x');
    assert a == a[..n] + a[n..] && b == b[..n] + b[n..];
  }

  lemma OtherLengthSpells(d: string, p: string, x: string, p': string, x': string)
    requires |p| != |p'|
    ensures d + ("(" + (p' + (")" + x'))) == d + ("(" + (p + (")" + x))) <==> Spells(p, x, p', x')
  {
    var a, b := p + (")" + x), p' + (")" + x');
    if |p| < |p'| {
      LongerSpells(p, x, p', x');
    } else {
      LongerSpells(p', x', p, x);
    }
    NameInjective("(", b, a);
    NameInjective(d, "(" + b, "(" + a);
  }

  /** For any block that is put back from its rendered halves: the text shows it exactly as
      written if and only if both halves rendered as themselves and nothing but a colon
      follows the parameter. A parameter that changed its length can hide that only if the
      longer of the old and the new one goes on with `)` and the text that was behind. */
  lemma UnknownBlockIsVerbatimIff(w: World, content: string, path: Path, st: State)
    requires Balanced(content) && !Has(content, 0, '{') && Live(path, st) && PutBack(w, content, path, st)
    ensures var b := ParseBlock(content); var (p, q, _) := Halves(w, content, path, st);
            && (p.Some? <==> b.parameter.Some?)
            && (Resolve(w, Braced(content), path, st).0 == Braced(content) <==>
                  if p.Some? && |p.value| != |b.parameter.value|
                  then Spells(b.parameter.value, Behind(content), p.value, PayloadText(q))
                  else p == b.parameter && q == b.payload && !DropsTail(content))
  {
    var b := ParseBlock(content); var (p, q, st3) := Halves(w, content, path, st);
    BlockRenders(w, content, path, st);
    HalvesKeepShape(w, content, path, st);
    assert Resolve(w, Braced(content), path, st).0 == Braced(Inner(b.declaration, p, q)) by {
      hide Resolve, Halves, ParseBlock, Inner, Balanced;
    }
    hide Resolve, Halves, Balanced, ParseBlock, PutBack;
    BracedInjective(Inner(b.declaration, p, q), content);
    if p.Some? && |p.value| != |b.parameter.value| {
      ParameterStands(content);
      hide PayloadText, Spells, Behind;
      OtherLengthSpells(b.declaration, b.parameter.value, Behind(content), p.value, PayloadText(q));
    } else {
      hide Inner;
      ReconstructIsVerbatimIff(content);
      if DropsTail(content) {
        DroppedIsShorter(content, if p.Some? then p.value else "");
      } else {
        InnerInjective(b.declaration, b.parameter, b.payload, p, q);
      }
    }
  }

  // ---- blocks without braces inside ---------------------------------------

  lemma PlainTextRenders(w: World, text: string, path: Path, st: State)
    requires Free(text, "{}") && !st.stopped
    ensures Resolve(w, text, path, st) == (text, st)
  {
    if |path| <= MAX_DEPTH {
      NothingToEscape(text);
      EscapedTextRendersItself(w, text, path, st);
    }
  }

  lemma PlainHalves(w: World, content: string, path: Path, st: State)
    requires Free(content, "{}") && !st.stopped
    ensures var b := ParseBlock(content);
            Halves(w, content, path, st) == (b.parameter, b.payload, st.(nodes := st.nodes + 1))
  {
    var b, st1 := ParseBlock(content), st.(nodes := st.nodes + 1);
    assert b.parameter.Some? ==> Free(b.parameter.value, "{}");
    assert b.payload.Some? ==> Free(b.payload.value, "{}");
    hide ParseBlock, Resolve;
    if b.parameter.Some? {
      PlainTextRenders(w, b.parameter.value, path + [Slot(0, false)], st1);
    }
    if b.payload.Some? {
      PlainTextRenders(w, b.payload.value, path + [Slot(0, true)], st1);
    }
  }

  /** A block without braces inside that the dispatch puts back is left verbatim if and only
      if nothing but a colon follows its closed parameter. */
  lemma PlainUnknownBlockIff(w: World, content: string, path: Path, st: State)
    requires Free(content, "{}") && Live(path, st)
    requires var b := ParseBlock(content);
             w.decide(st.vars, |st.log|, b.declaration, b.parameter, b.payload).0
             == Reconstruct(b.declaration, b.parameter, b.payload)
    ensures Resolve(w, Braced(content), path, st).0 == Braced(content) <==> !DropsTail(content)
  {
    FlatDepth(content);
    PlainHalves(w, content, path, st);
    hide Resolve, Halves, ParseBlock, Balanced, DropsTail, Reconstruct;
    assert content != "" ==> content[0] in content;
    UnknownBlockIsVerbatimIff(w, content, path, st);
  }

  // ---- the repository's unknown blocks ------------------------------------

  /** No keyword, no variable, no built-in attribute: the name of an unknown block. */
  predicate UnknownName(l: Library, vars: map<string, string>, name: string) {
    && KindOf(l.lower(name)) == Other && (name != "" ==> name[0] !in "$#" && !OnlyDigits(name))
    && name !in vars && name !in {"args", "uses", "unix"}
    && var dot := Find(name, ".", 0);
       (if dot <= |name| then name[..dot] else name) !in {"user", "author", "target", "channel", "server", "guild"}
  }

  lemma UnknownIsPutBack(l: Library, env: Env, vars: map<string, string>, call: nat,
                         name: string, p: Option<string>, q: Option<string>)
    requires UnknownName(l, vars, name)
    ensures Decide(l, env, vars, call, name, p, q) == (Reconstruct(name, p, q), NoChange)
  {
    hide OnlyDigits, Find, Reconstruct;
    assert GetVar(l, env, vars, call, name, p, q) == None;
  }

  /** So for the repository's blocks: `{a(b)c}` and its like lose text, all others stay. */
  lemma StandardUnknownBlockIff(l: Library, env: Env, content: string, path: Path, st: State)
    requires Free(content, "{}") && Live(path, st) && UnknownName(l, st.vars, ParseBlock(content).declaration)
    ensures Resolve(Standard(l, env), Braced(content), path, st).0 == Braced(content) <==> !DropsTail(content)
  {
    var b := ParseBlock(content);
    UnknownIsPutBack(l, env, st.vars, |st.log|, b.declaration, b.parameter, b.payload);
    hide Resolve, ParseBlock, UnknownName, Decide, DropsTail, Reconstruct;
    PlainUnknownBlockIff(Standard(l, env), content, path, st);
  }

  lemma HalvesOfPayload(w: World, content: string, path: Path, st: State, d: string, q: string, text: string)
    requires ParseBlock(content) == Block(d, None, Some(q))
    requires var st1 := st.(nodes := st.nodes + 1); Resolve(w, q, path + [Slot(0, true)], st1) == (text, st1)
    ensures Halves(w, content, path, st) == (None, Some(text), st.(nodes := st.nodes + 1))
  {
    hide Resolve, ParseBlock;
  }

  /** Doubled braces in the payload of an unknown block come out single: `{a:{{}}}` becomes
      `{a:{}}` although no text follows a parameter. */
  lemma DoubledBracesAreLost(l: Library, env: Env, path: Path, st: State)
    requires UnknownName(l, st.vars, "a") && Live(path, st) && |path| < MAX_DEPTH
    ensures !DropsTail("a:{{}}")
    ensures Resolve(Standard(l, env), "{a:{{}}}", path, st).0 == "{a:{}}"
  {
    assert !st.stopped;
    hide *;
    var w, st1 := Standard(l, env), st.(nodes := st.nodes + 1);
    DoubledBracesAreRead();
    DoubledBracesBalance();
    DoubledBracesPrint();
    EscapedTextRendersItself(w, "{}", path + [Slot(0, true)], st1);
    HalvesOfPayload(w, "a:{{}}", path, st, "a", "{{}}", "{}");
    BlockRenders(w, "a:{{}}", path, st);
    DispatchPutsBack(l, env, Site(path, 0), st1);
  }

  lemma DispatchPutsBack(l: Library, env: Env, site: Site, st: State)
    requires UnknownName(l, st.vars, "a")
    ensures Process(Standard(l, env), site, "a", None, Some("{}"), st).0 == Reconstruct("a", None, Some("{}"))
  {
    hide Decide, UnknownName;
    UnknownIsPutBack(l, env, st.vars, |st.log|, "a", None, Some("{}"));
  }

  lemma DoubledBracesPrint()
    ensures Escape("{}") == "{{}}" && Braced("a:{{}}") == "{a:{{}}}" && !Has("a:{{}}", 0, '{')
    ensures Reconstruct("a", None, Some("{}")) == "{a:{}}"
  {
    assert "{}"[1..] == "}" && "}"[1..] == "";
  }

  lemma DoubledBracesAreRead()
    ensures ParseBlock("a:{{}}") == Block("a", None, Some("{{}}")) && !DropsTail("a:{{}}")
  {
    var c := "a:{{}}";
    assert HeadFrom(c, 0) == HeadFrom(c, 1) == 1;
    assert c[..1] == "a" && c[2..] == "{{}}";
  }

  lemma DoubledBracesBalance()
    ensures Balanced("a:{{}}")
  {
    var c := "a:{{}}";
    hide Depth;
    assert c[..0] == "" && c[..6] == c;
    assert Depth("") == 0 by { NoDepth(); }
    DepthStep(c, 0);
    DepthStep(c, 1);
    DepthStep(c, 2);
    DepthStep(c, 3);
    DepthStep(c, 4);
    DepthStep(c, 5);
  }

  lemma NoDepth()
    ensures Depth("") == 0
  {
  }
}
