/** The interpreter as the source runs it: two mutable objects threaded through
    `resolve`, and the entry point `run` with its switch. */
module Interpreter {
  import opened Base
  import opened Engine
  import Lexer

  /** The mutable half of `TagContext`; `log` is a history of the dispatches. */
  class TagContext {
    var vars: map<string, string>
    var breakBody: Option<string>
    var nodes: nat
    var log: seq<Dispatch>

    constructor (vars: map<string, string>)
      ensures this.vars == vars && breakBody == None && nodes == 0 && log == []
    {
      this.vars, breakBody, nodes, log := vars, None, 0, [];
    }
  }

  class TagOutput {
    var content: string
    var effects: seq<Effect>
    var stopped: bool

    constructor ()
      ensures content == "" && effects == [] && !stopped
    {
      content, effects, stopped := "", [], false;
    }
  }

  ghost function View(ctx: TagContext, output: TagOutput): State
    reads ctx, output
  {
    State(ctx.vars, ctx.breakBody, ctx.nodes, output.stopped, output.content, output.effects, ctx.log)
  }

  method ProcessBlock(w: World, site: Site, name: string, parameter: Option<string>, payload: Option<string>,
                      ctx: TagContext, output: TagOutput) returns (text: string)
    modifies ctx, output
    ensures (text, View(ctx, output)) == Process(w, site, name, parameter, payload, old(View(ctx, output)))
  {
    var (t, change) := w.decide(ctx.vars, |ctx.log|, name, parameter, payload);
    text := t;
    match change {
      case NoChange =>
      case SetVar(v, value) => ctx.vars := ctx.vars[v := value];
      case BreakWith(body) => ctx.breakBody := Some(body);
      case StopWith(message) => output.stopped := true; output.content := message;
      case Emit(effect) => output.effects := output.effects + [effect];
    }
    ctx.log := ctx.log + [Dispatch(site, name, parameter, payload, output.stopped)];
  }

  function Prefixed(parts: string, r: (string, State)): (string, State) {
    (parts + r.0, r.1)
  }

  lemma ResolveOpens(w: World, input: string, path: Path, st: State)
    requires |path| <= MAX_DEPTH
    ensures var tokens := Lexer.Tokenized(input);
            && Lexer.WellShaped(tokens, |input|)
            && Resolve(w, input, path, st) == Prefixed("", Level(w, tokens, 0, path, 0, st, |input|))
  {
    Lexer.TokensShape(input, 0, "");
    var r := Level(w, Lexer.Tokenized(input), 0, path, 0, st, |input|);
    assert "" + r.0 == r.0;
  }

  /** One turn of the loop, after `text`: where it ends the level and where it goes on. */
  lemma LevelTurns(w: World, text: string, tokens: seq<Lexer.Token>, k: nat, path: Path, total: nat, st: State, n: nat)
    requires Lexer.WellShaped(tokens, n)
    ensures tokens == [] || st.stopped ==> Prefixed(text, Level(w, tokens, k, path, total, st, n)) == (text, st)
    ensures tokens != [] && !st.stopped ==>
              && Lexer.Below(tokens[0], n) && Lexer.WellShaped(tokens[1..], n)
              && var (part, st') := TokenStep(w, tokens[0], k, path, st, n);
                 Prefixed(text, Level(w, tokens, k, path, total, st, n)) ==
                   if SpentBy(tokens[0], st) || total + ByteLen(part) > MAX_OUTPUT then (text + part, st')
                   else Prefixed(text + part, Level(w, tokens[1..], k + 1, path, total + ByteLen(part), st', n))
  {
    assert text + "" == text;
    if tokens != [] && !st.stopped {
      var (part, st') := TokenStep(w, tokens[0], k, path, st, n);
      Assoc(text, part, Level(w, tokens[1..], k + 1, path, total + ByteLen(part), st', n).0);
    }
  }

  method ResolveText(w: World, input: string, ctx: TagContext, output: TagOutput, depth: nat, path: Path)
    returns (text: string)
    requires |path| == depth
    modifies ctx, output
    ensures (text, View(ctx, output)) == Resolve(w, input, path, old(View(ctx, output)))
    decreases |input|
  {
    if depth > MAX_DEPTH {
      return input;
    }
    hide Resolve, Level, TokenStep, SpentBy, Prefixed, ByteLen, Lexer.WellShaped, Lexer.Below, Lexer.Tokenized, Lexer.Tokens;
    var tokens := Lexer.Tokenize(input);
    ResolveOpens(w, input, path, View(ctx, output));
    text := "";
    var i, total: nat := 0, 0;
    assert tokens[0..] == tokens;
    while i < |tokens|
      invariant i <= |tokens|
      invariant Lexer.WellShaped(tokens[i..], |input|)
      invariant Resolve(w, input, path, old(View(ctx, output)))
                == Prefixed(text, Level(w, tokens[i..], i, path, total, View(ctx, output), |input|))
    {
      SuffixStep(tokens, i);
      LevelTurns(w, text, tokens[i..], i, path, total, View(ctx, output), |input|);
      if output.stopped {
        return;
      }
      var part, spent := ResolveToken(w, tokens[i], i, ctx, output, depth, path, |input|);
      total := total + ByteLen(part);
      text := text + part;
      if spent || total > MAX_OUTPUT {
        return;
      }
      i := i + 1;
    }
    LevelTurns(w, text, tokens[i..], i, path, total, View(ctx, output), |input|);
  }

  /** One token: its text, and whether it found the node budget spent. For a block,
      both halves are resolved, parameter first, and the block is dispatched. */
  method ResolveToken(w: World, t: Lexer.Token, k: nat, ctx: TagContext, output: TagOutput, depth: nat,
                      path: Path, n: nat) returns (part: string, spent: bool)
    requires Lexer.Below(t, n) && |path| == depth
    modifies ctx, output
    ensures (part, View(ctx, output)) == TokenStep(w, t, k, path, old(View(ctx, output)), n)
    ensures spent == SpentBy(t, old(View(ctx, output)))
    decreases n, 0
  {
    if t.Literal? {
      return t.text, false;
    }
    ctx.nodes := ctx.nodes + 1;
    if ctx.nodes > MAX_NODES {
      return "", true;
    }
    var parameter, payload := t.parameter, t.payload;
    if parameter.Some? {
      var p := ResolveText(w, parameter.value, ctx, output, depth + 1, path + [Slot(k, false)]);
      parameter := Some(p);
    }
    if payload.Some? {
      var q := ResolveText(w, payload.value, ctx, output, depth + 1, path + [Slot(k, true)]);
      payload := Some(q);
    }
    part := ProcessBlock(w, Site(path, k), t.declaration, parameter, payload, ctx, output);
    spent := false;
  }

  /** `run`: with the engine switched off the template passes through untouched. */
  method Run(enabled: bool, w: World, template: string, ctx: TagContext) returns (output: TagOutput)
    modifies ctx
    ensures fresh(output)
    ensures !enabled ==> output.content == template && output.effects == [] && !output.stopped
    ensures !enabled ==> unchanged(ctx)
    ensures enabled ==>
              var (text, st) := Resolve(w, template, [], Fresh(old(ctx.vars)));
              && output.content == Finish(text, st)
              && output.effects == st.effects && output.stopped == st.stopped
              && ctx.vars == st.vars && ctx.nodes == st.nodes && ctx.log == st.log
              && ctx.breakBody == if st.stopped then st.breakBody else None
  {
    output := new TagOutput();
    if !enabled {
      output.content := template;
      return;
    }
    ctx.breakBody, ctx.nodes, ctx.log := None, 0, [];
    var content := ResolveText(w, template, ctx, output, 0, []);
    if !output.stopped {
      output.content := ctx.breakBody.GetOr(content);
      ctx.breakBody := None;
    }
  }
}
