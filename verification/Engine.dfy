/**
 The TagScript interpreter: `resolve` and the enabled part of `run`.

 `Resolve` re-tokenizes nested text each time it reaches it. `Eval` is the usual
 evaluator over a tree parsed once. They are proved equal, budgets included.
 */
module Engine {
  import opened Base
  import opened Lexer

  const MAX_DEPTH := 50
  const MAX_NODES := 5_000
  const MAX_OUTPUT := 10_000

  /** Where nested text stands: the token it belongs to, and which half of it. */
  datatype Slot = Slot(index: nat, inPayload: bool)
  type Path = seq<Slot>

  /** Which block was dispatched: the level it stands on and its token there. */
  datatype Site = Site(level: Path, index: nat)

  /** A block that writes one output field; only its order and arguments matter here. */
  datatype Effect = Effect(name: string, parameter: Option<string>, payload: Option<string>)

  /** The state change one dispatch makes. */
  datatype Change =
    | NoChange
    | SetVar(name: string, value: string)
    | BreakWith(body: string)
    | StopWith(message: string)
    | Emit(effect: Effect)

  /** One entry of the dispatch log, a history variable of the model. */
  datatype Dispatch = Dispatch(site: Site, name: string, parameter: Option<string>,
                               payload: Option<string>, stopped: bool)

  /** The mutable halves of `TagContext` and `TagOutput`. */
  datatype State = State(vars: map<string, string>, breakBody: Option<string>, nodes: nat,
                         stopped: bool, content: string, effects: seq<Effect>, log: seq<Dispatch>)

  /** What a dispatch decides, from the variables, how many dispatches came before,
      and the block with its resolved halves. The engine works for any such table;
      `Blocks.Standard` is the repository's. */
  datatype World = World(
    decide: (map<string, string>, nat, string, Option<string>, Option<string>) -> (string, Change))

  function Apply(st: State, change: Change): State {
    match change
    case NoChange => st
    case SetVar(name, value) => st.(vars := st.vars[name := value])
    case BreakWith(body) => st.(breakBody := Some(body))
    case StopWith(message) => st.(stopped := true, content := message)
    case Emit(effect) => st.(effects := st.effects + [effect])
  }

  function Process(w: World, site: Site, name: string, p: Option<string>, q: Option<string>,
                   st: State): (string, State)
  {
    var (text, change) := w.decide(st.vars, |st.log|, name, p, q);
    var after := Apply(st, change);
    (text, after.(log := after.log + [Dispatch(site, name, p, q, after.stopped)]))
  }

  // ---- lazy evaluation ----------------------------------------------------

  function Resolve(w: World, s: string, path: Path, st: State): (string, State)
    decreases |s|, 2, 0
  {
    if |path| > MAX_DEPTH then (s, st)
    else
      TokensShape(s, 0, "");
      Level(w, Tokenized(s), 0, path, 0, st, |s|)
  }

  /** The tokens of one level from the k-th on, `total` bytes already rendered. */
  function Level(w: World, tokens: seq<Token>, k: nat, path: Path, total: nat, st: State, n: nat): (string, State)
    requires WellShaped(tokens, n)
    decreases n, 1, |tokens|
  {
    if tokens == [] || st.stopped then ("", st)
    else
      var (text, st') := TokenStep(w, tokens[0], k, path, st, n);
      if SpentBy(tokens[0], st) || total + ByteLen(text) > MAX_OUTPUT then (text, st')
      else
        var (rest, st'') := Level(w, tokens[1..], k + 1, path, total + ByteLen(text), st', n);
        (text + rest, st'')
  }

  /** The node budget is used up on reaching this token. */
  predicate SpentBy(t: Token, st: State) {
    t.Block? && st.nodes + 1 > MAX_NODES
  }

  function TokenStep(w: World, t: Token, k: nat, path: Path, st: State, n: nat): (string, State)
    requires Below(t, n)
    decreases n, 1, 0
  {
    match t
    case Literal(text) => (text, st)
    case Block(name, p, q) =>
      var st1 := st.(nodes := st.nodes + 1);
      if st1.nodes > MAX_NODES then ("", st1)
      else
        var (p', st2) := ResolveOption(w, p, path + [Slot(k, false)], st1, n);
        var (q', st3) := ResolveOption(w, q, path + [Slot(k, true)], st2, n);
        Process(w, Site(path, k), name, p', q', st3)
  }

  function ResolveOption(w: World, s: Option<string>, path: Path, st: State, n: nat): (Option<string>, State)
    requires s.Some? ==> |s.value| < n
    decreases n, 0, 0
  {
    match s
    case None => (None, st)
    case Some(text) =>
      var (r, st') := Resolve(w, text, path, st);
      (Some(r), st')
  }

  // ---- eager parsing ------------------------------------------------------

  datatype Tree = Verbatim(text: string) | Sequence(nodes: seq<Node>)
  datatype Node = Text(text: string) | Call(name: string, parameter: Option<Tree>, payload: Option<Tree>)

  function Parse(s: string, depth: nat): Tree
    decreases |s|, 2, 0
  {
    if depth > MAX_DEPTH then Verbatim(s)
    else
      TokensShape(s, 0, "");
      Sequence(ParseTokens(Tokenized(s), depth, |s|))
  }

  function ParseTokens(tokens: seq<Token>, depth: nat, n: nat): seq<Node>
    requires WellShaped(tokens, n)
    decreases n, 1, |tokens|
  {
    if tokens == [] then []
    else [ParseToken(tokens[0], depth, n)] + ParseTokens(tokens[1..], depth, n)
  }

  function ParseToken(t: Token, depth: nat, n: nat): Node
    requires Below(t, n)
    decreases n, 1, 0
  {
    match t
    case Literal(text) => Text(text)
    case Block(name, p, q) =>
      Call(name,
           if p.Some? then Some(Parse(p.value, depth + 1)) else None,
           if q.Some? then Some(Parse(q.value, depth + 1)) else None)
  }

  // ---- tree evaluation ----------------------------------------------------

  /** A tree's text and final state, parameter before payload, left to right. */
  function Eval(w: World, tree: Tree, path: Path, st: State): (string, State)
    decreases tree
  {
    match tree
    case Verbatim(text) => (text, st)
    case Sequence(nodes) => EvalNodes(w, nodes, 0, path, 0, st)
  }

  function EvalNodes(w: World, nodes: seq<Node>, k: nat, path: Path, total: nat, st: State): (string, State)
    decreases nodes
  {
    if nodes == [] || st.stopped then ("", st)
    else
      var (text, st') := EvalNode(w, nodes[0], k, path, st);
      if (nodes[0].Call? && st.nodes + 1 > MAX_NODES) || total + ByteLen(text) > MAX_OUTPUT then (text, st')
      else
        var (rest, st'') := EvalNodes(w, nodes[1..], k + 1, path, total + ByteLen(text), st');
        (text + rest, st'')
  }

  function EvalNode(w: World, node: Node, k: nat, path: Path, st: State): (string, State)
    decreases node
  {
    match node
    case Text(text) => (text, st)
    case Call(name, p, q) =>
      var st1 := st.(nodes := st.nodes + 1);
      if st1.nodes > MAX_NODES then ("", st1)
      else
        var (p', st2) := EvalOption(w, p, path + [Slot(k, false)], st1);
        var (q', st3) := EvalOption(w, q, path + [Slot(k, true)], st2);
        Process(w, Site(path, k), name, p', q', st3)
  }

  function EvalOption(w: World, tree: Option<Tree>, path: Path, st: State): (Option<string>, State)
    decreases tree
  {
    match tree
    case None => (None, st)
    case Some(t) =>
      var (r, st') := Eval(w, t, path, st);
      (Some(r), st')
  }

  // ---- meaning preservation -----------------------------------------------

  /** Rendering text lazily is evaluating its parse tree: same text, variables,
      break body, effects, budgets spent, and same dispatches in the same order. */
  lemma {:induction false} ResolveIsEval(w: World, s: string, path: Path, st: State)
    ensures Resolve(w, s, path, st) == Eval(w, Parse(s, |path|), path, st)
    decreases |s|, 2, 0
  {
    if |path| <= MAX_DEPTH {
      TokensShape(s, 0, "");
      LevelIsEvalNodes(w, Tokenized(s), 0, path, 0, st, |s|);
    }
  }

  /** One turn of either evaluator, given that the rest agrees. */
  lemma TurnIsEvalNodes(w: World, tokens: seq<Token>, k: nat, path: Path, total: nat, st: State, n: nat)
    requires WellShaped(tokens, n) && tokens != [] && !st.stopped
    requires Below(tokens[0], n) && WellShaped(tokens[1..], n)
    requires TokenStep(w, tokens[0], k, path, st, n) == EvalNode(w, ParseToken(tokens[0], |path|, n), k, path, st)
    requires var (text, st') := TokenStep(w, tokens[0], k, path, st, n);
             Level(w, tokens[1..], k + 1, path, total + ByteLen(text), st', n)
             == EvalNodes(w, ParseTokens(tokens[1..], |path|, n), k + 1, path, total + ByteLen(text), st')
    ensures Level(w, tokens, k, path, total, st, n)
            == EvalNodes(w, ParseTokens(tokens, |path|, n), k, path, total, st)
  {
    hide TokenStep, EvalNode, ByteLen, Below, WellShaped;
    assert ParseTokens(tokens, |path|, n)[1..] == ParseTokens(tokens[1..], |path|, n);
  }

  lemma {:induction false} LevelIsEvalNodes(w: World, tokens: seq<Token>, k: nat, path: Path, total: nat, st: State, n: nat)
    requires WellShaped(tokens, n)
    ensures Level(w, tokens, k, path, total, st, n)
            == EvalNodes(w, ParseTokens(tokens, |path|, n), k, path, total, st)
    decreases n, 1, |tokens|
  {
    if tokens != [] && !st.stopped {
      assert Below(tokens[0], n) && WellShaped(tokens[1..], n);
      hide *;
      StepIsEvalNode(w, tokens[0], k, path, st, n);
      var (text, st') := TokenStep(w, tokens[0], k, path, st, n);
      LevelIsEvalNodes(w, tokens[1..], k + 1, path, total + ByteLen(text), st', n);
      TurnIsEvalNodes(w, tokens, k, path, total, st, n);
    }
  }

  lemma {:induction false} StepIsEvalNode(w: World, t: Token, k: nat, path: Path, st: State, n: nat)
    requires Below(t, n)
    ensures TokenStep(w, t, k, path, st, n) == EvalNode(w, ParseToken(t, |path|, n), k, path, st)
    decreases n, 1, 0
  {
    if t.Block? {
      hide Process, Resolve, Eval;
      var st1 := st.(nodes := st.nodes + 1);
      var before, within := path + [Slot(k, false)], path + [Slot(k, true)];
      OptionIsEval(w, t.parameter, before, st1, n);
      OptionIsEval(w, t.payload, within, ResolveOption(w, t.parameter, before, st1, n).1, n);
    }
  }

  lemma {:induction false} OptionIsEval(w: World, s: Option<string>, path: Path, st: State, n: nat)
    requires s.Some? ==> |s.value| < n
    ensures ResolveOption(w, s, path, st, n) ==
              EvalOption(w, if s.Some? then Some(Parse(s.value, |path|)) else None, path, st)
    decreases n, 0, 0
  {
    if s.Some? {
      ResolveIsEval(w, s.value, path, st);
    }
  }

  // ---- how much work ------------------------------------------------------

  function Slack(st: State): nat {
    if st.nodes < MAX_NODES then MAX_NODES - st.nodes else 0
  }

  /** The dispatch happened at or below the level `path`, within the depth limit. */
  ghost predicate Inside(d: Dispatch, path: Path) {
    path <= d.site.level && |d.site.level| <= MAX_DEPTH
  }

  /** Rendering at `path` appended dispatches inside it, each paid for by the node
      budget; once stopped, nothing happens at all. */
  ghost predicate Grew(path: Path, st: State, st': State) {
    && st.log <= st'.log
    && (forall i | |st.log| <= i < |st'.log| :: Inside(st'.log[i], path))
    && |st'.log| + Slack(st') <= |st.log| + Slack(st)
    && (st.stopped ==> st' == st)
  }

  lemma GrewTwice(path: Path, inner: Path, a: State, b: State, c: State)
    requires Grew(path, a, b) && path <= inner && Grew(inner, b, c)
    ensures Grew(path, a, c)
  {
  }

  lemma {:induction false} ResolveGrew(w: World, s: string, path: Path, st: State)
    ensures Grew(path, st, Resolve(w, s, path, st).1)
    decreases |s|, 2, 0
  {
    if |path| <= MAX_DEPTH {
      TokensShape(s, 0, "");
      LevelGrew(w, Tokenized(s), 0, path, 0, st, |s|);
    }
  }

  lemma {:induction false} LevelGrew(w: World, tokens: seq<Token>, k: nat, path: Path, total: nat, st: State, n: nat)
    requires WellShaped(tokens, n) && |path| <= MAX_DEPTH
    ensures Grew(path, st, Level(w, tokens, k, path, total, st, n).1)
    decreases n, 1, |tokens|
  {
    if tokens != [] && !st.stopped {
      hide TokenStep;
      StepGrew(w, tokens[0], k, path, st, n);
      var (text, st') := TokenStep(w, tokens[0], k, path, st, n);
      LevelGrew(w, tokens[1..], k + 1, path, total + ByteLen(text), st', n);
      GrewTwice(path, path, st, st', Level(w, tokens[1..], k + 1, path, total + ByteLen(text), st', n).1);
    }
  }

  lemma {:induction false} StepGrew(w: World, t: Token, k: nat, path: Path, st: State, n: nat)
    requires Below(t, n) && |path| <= MAX_DEPTH && !st.stopped
    ensures Grew(path, st, TokenStep(w, t, k, path, st, n).1)
    decreases n, 1, 0
  {
    if t.Block? && st.nodes + 1 <= MAX_NODES {
      var st1 := st.(nodes := st.nodes + 1);
      var before, within := path + [Slot(k, false)], path + [Slot(k, true)];
      OptionGrew(w, t.parameter, before, st1, n);
      var (p, st2) := ResolveOption(w, t.parameter, before, st1, n);
      OptionGrew(w, t.payload, within, st2, n);
      hide ResolveOption;
      GrewTwice(before, before, st1, st1, st2);
      var (q, st3) := ResolveOption(w, t.payload, within, st2, n);
      OneMoreDispatch(w, Site(path, k), t.declaration, p, q, st, st1, st2, st3, before, within);
    }
  }

  lemma OneMoreDispatch(w: World, site: Site, name: string, p: Option<string>, q: Option<string>,
                        st: State, st1: State, st2: State, st3: State, before: Path, within: Path)
    requires !st.stopped && st.nodes + 1 <= MAX_NODES && st1 == st.(nodes := st.nodes + 1)
    requires |site.level| <= MAX_DEPTH && site.level <= before && site.level <= within
    requires Grew(before, st1, st2) && Grew(within, st2, st3)
    ensures Grew(site.level, st, Process(w, site, name, p, q, st3).1)
  {
    var st4 := Process(w, site, name, p, q, st3).1;
    assert st4.nodes == st3.nodes && |st4.log| == |st3.log| + 1;
  }

  lemma {:induction false} OptionGrew(w: World, s: Option<string>, path: Path, st: State, n: nat)
    requires s.Some? ==> |s.value| < n
    ensures Grew(path, st, ResolveOption(w, s, path, st, n).1)
    decreases n, 0, 0
  {
    if s.Some? {
      ResolveGrew(w, s.value, path, st);
    }
  }

  // ---- the node counter ---------------------------------------------------

  /** The most the counter can stand at after rendering at nesting `depth`. */
  function Ceiling(nodes: nat, depth: nat): nat {
    if nodes >= MAX_NODES then nodes + 1
    else MAX_NODES + if depth <= MAX_DEPTH then 2 * (MAX_DEPTH + 1 - depth) else 0
  }

  /** Each level that finds the budget spent counts one block more and gives up, so
      the 32-bit counter stays within two per nesting level of the limit. */
  lemma {:induction false} NodesBounded(w: World, s: string, path: Path, st: State)
    ensures st.nodes <= Resolve(w, s, path, st).1.nodes <= Ceiling(st.nodes, |path|)
    decreases |s|, 2, 0
  {
    if |path| <= MAX_DEPTH {
      TokensShape(s, 0, "");
      LevelNodes(w, Tokenized(s), 0, path, 0, st, |s|);
    }
  }

  lemma {:induction false} LevelNodes(w: World, tokens: seq<Token>, k: nat, path: Path, total: nat, st: State, n: nat)
    requires WellShaped(tokens, n) && |path| <= MAX_DEPTH
    ensures st.nodes <= Level(w, tokens, k, path, total, st, n).1.nodes <= Ceiling(st.nodes, |path|)
    decreases n, 1, |tokens|
  {
    if tokens != [] && !st.stopped {
      hide TokenStep;
      StepNodes(w, tokens[0], k, path, st, n);
      var (text, st') := TokenStep(w, tokens[0], k, path, st, n);
      LevelNodes(w, tokens[1..], k + 1, path, total + ByteLen(text), st', n);
    }
  }

  lemma {:induction false} StepNodes(w: World, t: Token, k: nat, path: Path, st: State, n: nat)
    requires Below(t, n) && |path| <= MAX_DEPTH
    ensures var after := TokenStep(w, t, k, path, st, n).1.nodes;
            && st.nodes <= after
            && (t.Literal? ==> after == st.nodes)
            && (SpentBy(t, st) ==> after == st.nodes + 1)
            && (!SpentBy(t, st) ==> after < Ceiling(st.nodes, |path|))
    decreases n, 1, 0
  {
    if t.Block? && st.nodes + 1 <= MAX_NODES {
      var st1 := st.(nodes := st.nodes + 1);
      var before, within := path + [Slot(k, false)], path + [Slot(k, true)];
      OptionNodes(w, t.parameter, before, st1, n);
      OptionNodes(w, t.payload, within, ResolveOption(w, t.parameter, before, st1, n).1, n);
      hide ResolveOption;
    }
  }

  lemma {:induction false} OptionNodes(w: World, s: Option<string>, path: Path, st: State, n: nat)
    requires s.Some? ==> |s.value| < n
    ensures st.nodes <= ResolveOption(w, s, path, st, n).1.nodes <= Ceiling(st.nodes, |path|)
    decreases n, 0, 0
  {
    if s.Some? {
      NodesBounded(w, s.value, path, st);
    }
  }

  // ---- after a stop -------------------------------------------------------

  /** The first entry from `from` on after which the run is stopped; |log| if none. */
  function FirstStop(log: seq<Dispatch>, from: nat): (k: nat)
    requires from <= |log|
    ensures from <= k <= |log|
    decreases |log| - from
  {
    if from == |log| || log[from].stopped then from else FirstStop(log, from + 1)
  }

  function Sites(log: seq<Dispatch>, from: nat): seq<Site>
    requires from <= |log|
    decreases |log| - from
  {
    if from == |log| then [] else [log[from].site] + Sites(log, from + 1)
  }

  /** The blocks around a level, innermost first, out to nesting `base`. */
  function Enclosers(level: Path, base: nat): seq<Site>
    requires base <= |level|
    decreases |level|
  {
    if |level| == base then []
    else
      var outer := level[..|level| - 1];
      [Site(outer, level[|level| - 1].index)] + Enclosers(outer, base)
  }

  /** Either no dispatch stopped the run, or exactly the blocks enclosing the first
      one that did were dispatched after it, innermost first. */
  ghost predicate Trail(path: Path, st: State, st': State)
    requires |st.log| <= |st'.log|
  {
    var k := FirstStop(st'.log, |st.log|);
    if !st'.stopped then k == |st'.log|
    else
      && k < |st'.log| && |path| <= |st'.log[k].site.level|
      && Sites(st'.log, k + 1) == Enclosers(st'.log[k].site.level, |path|)
  }

  lemma {:induction false} FirstStopGrows(log: seq<Dispatch>, log': seq<Dispatch>, from: nat)
    requires log <= log' && from <= |log|
    ensures FirstStop(log', from) ==
              if FirstStop(log, from) < |log| then FirstStop(log, from) else FirstStop(log', |log|)
    decreases |log| - from
  {
    if from < |log| && !log[from].stopped {
      FirstStopGrows(log, log', from + 1);
    }
  }

  lemma {:induction false} SitesAppend(log: seq<Dispatch>, d: Dispatch, from: nat)
    requires from <= |log|
    ensures Sites(log + [d], from) == Sites(log, from) + [d.site]
    decreases |log| - from
  {
    if from < |log| {
      SitesAppend(log, d, from + 1);
    } else {
      assert Sites(log + [d], from + 1) == [];
    }
  }

  lemma {:induction false} OutermostEncloser(level: Path, base: nat)
    requires base < |level|
    ensures Enclosers(level, base) == Enclosers(level, base + 1) + [Site(level[..base], level[base].index)]
    decreases |level|
  {
    var outer := level[..|level| - 1];
    if base + 1 < |level| {
      OutermostEncloser(outer, base);
      assert outer[..base] == level[..base];
    } else {
      assert outer == level[..base];
      assert Enclosers(outer, base) == [];
    }
  }

  /** A stop inside a half of a block, followed by the dispatch of that block. */
  lemma EncloserDispatched(w: World, k: nat, slot: Slot, path: Path, name: string,
                           p: Option<string>, q: Option<string>, st: State, inner: State)
    requires slot.index == k && |path| <= MAX_DEPTH
    requires Grew(path + [slot], st, inner) && Trail(path + [slot], st, inner) && inner.stopped
    ensures var st' := Process(w, Site(path, k), name, p, q, inner).1;
            |st.log| <= |st'.log| && st'.stopped && Trail(path, st, st')
  {
    var st' := Process(w, Site(path, k), name, p, q, inner).1;
    var d := st'.log[|inner.log|];
    assert st'.log == inner.log + [d];
    var at := FirstStop(inner.log, |st.log|);
    FirstStopGrows(inner.log, st'.log, |st.log|);
    SitesAppend(inner.log, d, at + 1);
    var level := inner.log[at].site.level;
    assert Inside(inner.log[at], path + [slot]);
    OutermostEncloser(level, |path|);
    assert level[..|path|] == path && level[|path|] == slot;
  }

  /** The block's own dispatch, nothing having stopped in its halves. */
  lemma OwnDispatch(w: World, site: Site, name: string, p: Option<string>, q: Option<string>, st: State, inner: State)
    requires st.log <= inner.log && !inner.stopped && FirstStop(inner.log, |st.log|) == |inner.log|
    ensures var st' := Process(w, site, name, p, q, inner).1;
            |st.log| <= |st'.log| && Trail(site.level, st, st')
  {
    var st' := Process(w, site, name, p, q, inner).1;
    FirstStopGrows(inner.log, st'.log, |st.log|);
    if !st'.stopped {
      assert FirstStop(st'.log, |inner.log| + 1) == |st'.log|;
    }
  }

  /** No stop up to `b`, then a trail from `b`: a trail from `a`. */
  lemma TrailFrom(path: Path, a: State, b: State, c: State)
    requires a.log <= b.log && b.log <= c.log
    requires FirstStop(b.log, |a.log|) == |b.log| && Trail(path, b, c)
    ensures Trail(path, a, c)
  {
    FirstStopGrows(b.log, c.log, |a.log|);
  }

  lemma {:induction false} StopTrail(w: World, s: string, path: Path, st: State)
    requires !st.stopped
    ensures Grew(path, st, Resolve(w, s, path, st).1)
    ensures Trail(path, st, Resolve(w, s, path, st).1)
    decreases |s|, 2, 0
  {
    ResolveGrew(w, s, path, st);
    if |path| <= MAX_DEPTH {
      TokensShape(s, 0, "");
      LevelTrail(w, Tokenized(s), 0, path, 0, st, |s|);
    }
  }

  lemma {:induction false} LevelTrail(w: World, tokens: seq<Token>, k: nat, path: Path, total: nat, st: State, n: nat)
    requires WellShaped(tokens, n) && |path| <= MAX_DEPTH && !st.stopped
    ensures st.log <= Level(w, tokens, k, path, total, st, n).1.log
    ensures Trail(path, st, Level(w, tokens, k, path, total, st, n).1)
    decreases n, 1, |tokens|
  {
    if tokens != [] {
      hide TokenStep, Trail;
      StepGrew(w, tokens[0], k, path, st, n);
      StepTrail(w, tokens[0], k, path, st, n);
      var (text, st') := TokenStep(w, tokens[0], k, path, st, n);
      if !st'.stopped {
        LevelTrail(w, tokens[1..], k + 1, path, total + ByteLen(text), st', n);
        TrailWithoutStop(path, st, st');
        TrailFrom(path, st, st', Level(w, tokens[1..], k + 1, path, total + ByteLen(text), st', n).1);
      }
    } else {
      assert FirstStop(st.log, |st.log|) == |st.log|;
    }
  }

  lemma TrailWithoutStop(path: Path, st: State, st': State)
    requires |st.log| <= |st'.log| && Trail(path, st, st') && !st'.stopped
    ensures FirstStop(st'.log, |st.log|) == |st'.log|
  {
  }

  lemma {:induction false} StepTrail(w: World, t: Token, k: nat, path: Path, st: State, n: nat)
    requires Below(t, n) && |path| <= MAX_DEPTH && !st.stopped
    ensures st.log <= TokenStep(w, t, k, path, st, n).1.log
    ensures Trail(path, st, TokenStep(w, t, k, path, st, n).1)
    decreases n, 1, 0
  {
    if t.Block? && st.nodes + 1 <= MAX_NODES {
      var st1 := st.(nodes := st.nodes + 1);
      var before, within := Slot(k, false), Slot(k, true);
      OptionTrail(w, t.parameter, path + [before], st1, n);
      var (p, st2) := ResolveOption(w, t.parameter, path + [before], st1, n);
      OptionTrail(w, t.payload, path + [within], st2, n);
      hide ResolveOption, Trail, Process;
      var (q, st3) := ResolveOption(w, t.payload, path + [within], st2, n);
      BlockTrail(w, k, path, t.declaration, p, q, st, st1, st2, st3);
    } else {
      assert FirstStop(st.log, |st.log|) == |st.log|;
    }
  }

  lemma BlockTrail(w: World, k: nat, path: Path, name: string, p: Option<string>, q: Option<string>,
                   st: State, st1: State, st2: State, st3: State)
    requires |path| <= MAX_DEPTH && !st1.stopped && st.log == st1.log
    requires Grew(path + [Slot(k, false)], st1, st2) && Trail(path + [Slot(k, false)], st1, st2)
    requires Grew(path + [Slot(k, true)], st2, st3)
    requires if st2.stopped then st3 == st2 else Trail(path + [Slot(k, true)], st2, st3)
    ensures var st4 := Process(w, Site(path, k), name, p, q, st3).1;
            st.log <= st4.log && Trail(path, st, st4)
  {
    hide Trail;
    var before, within := path + [Slot(k, false)], path + [Slot(k, true)];
    var st4 := Process(w, Site(path, k), name, p, q, st3).1;
    assert st3.log <= st4.log;
    if st2.stopped {
      EncloserDispatched(w, k, Slot(k, false), path, name, p, q, st1, st2);
    } else {
      TrailWithoutStop(before, st1, st2);
      if st3.stopped {
        EncloserDispatched(w, k, Slot(k, true), path, name, p, q, st2, st3);
        TrailFrom(path, st1, st2, st4);
      } else {
        TrailWithoutStop(within, st2, st3);
        FirstStopGrows(st2.log, st3.log, |st1.log|);
        OwnDispatch(w, Site(path, k), name, p, q, st1, st3);
      }
    }
    SameLog(path, st, st1, st4);
  }

  lemma SameLog(path: Path, a: State, b: State, c: State)
    requires a.log == b.log && |b.log| <= |c.log| && Trail(path, b, c)
    ensures Trail(path, a, c)
  {
  }

  lemma {:induction false} OptionTrail(w: World, s: Option<string>, path: Path, st: State, n: nat)
    requires s.Some? ==> |s.value| < n
    ensures var st' := ResolveOption(w, s, path, st, n).1;
            Grew(path, st, st') && (if st.stopped then st' == st else Trail(path, st, st'))
    decreases n, 0, 0
  {
    if s.Some? {
      ResolveGrew(w, s.value, path, st);
      if !st.stopped {
        StopTrail(w, s.value, path, st);
      }
    } else if !st.stopped {
      assert FirstStop(st.log, |st.log|) == |st.log|;
    }
  }

  // ---- a whole run --------------------------------------------------------

  function Fresh(vars: map<string, string>): State {
    State(vars, None, 0, false, "", [], [])
  }

  /** What the user sees: the stop message, else the break body, else the text. */
  function Finish(text: string, st: State): string {
    if st.stopped then st.content else st.breakBody.GetOr(text)
  }

  /** The cost of any template: at most 5000 dispatches, none nested deeper than 50, a counter far inside 32 bits; and after the first stop exactly
      the blocks enclosing it are dispatched, innermost first, and nothing else. */
  lemma RunIsBounded(w: World, template: string, vars: map<string, string>)
    ensures var st := Resolve(w, template, [], Fresh(vars)).1;
            && |st.log| <= 5_000
            && (forall d | d in st.log :: |d.site.level| <= 50)
            && st.nodes <= 5_102
            && (!st.stopped ==> forall d | d in st.log :: !d.stopped)
            && (st.stopped ==>
                  var k := FirstStop(st.log, 0);
                  k < |st.log| && Sites(st.log, k + 1) == Enclosers(st.log[k].site.level, 0))
  {
    var st := Resolve(w, template, [], Fresh(vars)).1;
    ResolveGrew(w, template, [], Fresh(vars));
    NodesBounded(w, template, [], Fresh(vars));
    StopTrail(w, template, [], Fresh(vars));
    forall d | d in st.log ensures Inside(d, []) {
      var i :| 0 <= i < |st.log| && st.log[i] == d;
    }
    if !st.stopped {
      NoStopSeen(st.log, 0);
    }
  }

  lemma {:induction false} NoStopSeen(log: seq<Dispatch>, from: nat)
    requires from <= |log| && FirstStop(log, from) == |log|
    ensures forall i | from <= i < |log| :: !log[i].stopped
    decreases |log| - from
  {
    if from < |log| {
      NoStopSeen(log, from + 1);
    }
  }

  /** Text with every brace doubled renders as that text and does nothing else, at any
      length and any depth that is rendered at all. */
  lemma EscapedTextRendersItself(w: World, text: string, path: Path, st: State)
    requires |path| <= MAX_DEPTH && !st.stopped
    ensures Resolve(w, Escape(text), path, st) == (text, st)
  {
    var n := |Escape(text)|;
    TokensShape(Escape(text), 0, "");
    if text != "" {
      EscapedTextIsOneLiteral(text);
      OneLiteralLevel(w, text, path, st, n);
    }
    hide Tokens, Level;
    assert text == "" ==> Tokenized(Escape(text)) == [] by { NoTokens(); }
    NoLevel(w, path, st, n);
  }

  lemma NoTokens()
    ensures Tokenized(Escape("")) == []
  {
  }

  lemma NoLevel(w: World, path: Path, st: State, n: nat)
    ensures Level(w, [], 0, path, 0, st, n) == ("", st)
  {
  }

  lemma OneLiteralLevel(w: World, text: string, path: Path, st: State, n: nat)
    requires WellShaped([Literal(text)], n) && !st.stopped
    ensures Level(w, [Literal(text)], 0, path, 0, st, n) == (text, st)
  {
    assert [Literal(text)][1..] == [];
    assert Level(w, [], 1, path, 0 + ByteLen(text), st, n) == ("", st);
    assert text + "" == text;
  }

  /** A level that has given more than 10000 bytes gives nothing after the token that took it
      past them, and does nothing either. */
  lemma OutputIsCut(w: World, tokens: seq<Token>, k: nat, path: Path, total: nat, st: State, n: nat)
    requires WellShaped(tokens, n) && tokens != [] && !st.stopped
    requires var text := TokenStep(w, tokens[0], k, path, st, n).0; total + ByteLen(text) > 10_000
    ensures Level(w, tokens, k, path, total, st, n) == TokenStep(w, tokens[0], k, path, st, n)
  {
    hide TokenStep, ByteLen;
  }

  // ---- budgets are invisible until spent ----------------------------------

  /** A tree's meaning with no budget at all, and the widest level it rendered. */
  function Meaning(w: World, tree: Tree, path: Path, st: State): (string, State, nat)
    decreases tree
  {
    match tree
    case Verbatim(text) => (text, st, 0)
    case Sequence(nodes) => NodesMeaning(w, nodes, 0, path, 0, st)
  }

  function NodesMeaning(w: World, nodes: seq<Node>, k: nat, path: Path, total: nat, st: State): (string, State, nat)
    decreases nodes
  {
    if nodes == [] || st.stopped then ("", st, total)
    else
      var (text, st', wide) := NodeMeaning(w, nodes[0], k, path, st);
      var (rest, st'', wide') := NodesMeaning(w, nodes[1..], k + 1, path, total + ByteLen(text), st');
      (text + rest, st'', Max(wide, wide'))
  }

  function NodeMeaning(w: World, node: Node, k: nat, path: Path, st: State): (string, State, nat)
    decreases node
  {
    match node
    case Text(text) => (text, st, 0)
    case Call(name, p, q) =>
      var (p', st2, wide) := OptionMeaning(w, p, path + [Slot(k, false)], st.(nodes := st.nodes + 1));
      var (q', st3, wide') := OptionMeaning(w, q, path + [Slot(k, true)], st2);
      var (text, st4) := Process(w, Site(path, k), name, p', q', st3);
      (text, st4, Max(wide, wide'))
  }

  function OptionMeaning(w: World, tree: Option<Tree>, path: Path, st: State): (Option<string>, State, nat)
    decreases tree
  {
    match tree
    case None => (None, st, 0)
    case Some(t) =>
      var (r, st', wide) := Meaning(w, t, path, st);
      (Some(r), st', wide)
  }

  /** While the node count and every level's width stay within their limits, the
      budgeted evaluator computes the meaning. */
  lemma {:induction false} BudgetsInvisible(w: World, tree: Tree, path: Path, st: State)
    ensures var (text, st', wide) := Meaning(w, tree, path, st);
            && st.nodes <= st'.nodes
            && (st'.nodes <= 5_000 && wide <= 10_000 ==> Eval(w, tree, path, st) == (text, st'))
    decreases tree
  {
    if tree.Sequence? {
      NodesInvisible(w, tree.nodes, 0, path, 0, st);
    }
  }

  lemma {:induction false} NodesInvisible(w: World, nodes: seq<Node>, k: nat, path: Path, total: nat, st: State)
    ensures var (text, st', wide) := NodesMeaning(w, nodes, k, path, total, st);
            && st.nodes <= st'.nodes && total <= wide
            && (st'.nodes <= MAX_NODES && wide <= MAX_OUTPUT
                ==> EvalNodes(w, nodes, k, path, total, st) == (text, st'))
    decreases nodes
  {
    if nodes != [] && !st.stopped {
      hide NodeMeaning, EvalNode, ByteLen;
      NodeInvisible(w, nodes[0], k, path, st);
      var (text, st', wide) := NodeMeaning(w, nodes[0], k, path, st);
      NodesInvisible(w, nodes[1..], k + 1, path, total + ByteLen(text), st');
      var (rest, st'', wide') := NodesMeaning(w, nodes[1..], k + 1, path, total + ByteLen(text), st');
      assert NodesMeaning(w, nodes, k, path, total, st) == (text + rest, st'', Max(wide, wide'));
      if st''.nodes <= MAX_NODES && Max(wide, wide') <= MAX_OUTPUT {
        assert EvalNode(w, nodes[0], k, path, st) == (text, st');
      }
    }
  }

  lemma {:induction false} NodeInvisible(w: World, node: Node, k: nat, path: Path, st: State)
    ensures var (text, st', wide) := NodeMeaning(w, node, k, path, st);
            && st.nodes + (if node.Call? then 1 else 0) <= st'.nodes
            && (st'.nodes <= MAX_NODES && wide <= MAX_OUTPUT ==> EvalNode(w, node, k, path, st) == (text, st'))
    decreases node
  {
    match node
    case Text(_) =>
    case Call(_, p, q) =>
      var st1 := st.(nodes := st.nodes + 1);
      OptionInvisible(w, p, path + [Slot(k, false)], st1);
      OptionInvisible(w, q, path + [Slot(k, true)], OptionMeaning(w, p, path + [Slot(k, false)], st1).1);
      hide OptionMeaning, EvalOption;
  }

  lemma {:induction false} OptionInvisible(w: World, tree: Option<Tree>, path: Path, st: State)
    ensures var (text, st', wide) := OptionMeaning(w, tree, path, st);
            && st.nodes <= st'.nodes
            && (st'.nodes <= MAX_NODES && wide <= MAX_OUTPUT ==> EvalOption(w, tree, path, st) == (text, st'))
    decreases tree
  {
    if tree.Some? {
      BudgetsInvisible(w, tree.value, path, st);
    }
  }
}
