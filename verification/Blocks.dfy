/** Dispatch of a single block: `process_block` and the conditions it evaluates. */
module Blocks {
  import opened Base
  import opened Context
  import Codecs
  import Lexer
  import Math
  import Random
  import opened Engine

  // ---- conditions ---------------------------------------------------------

  function SplitAtFirst(s: string, pat: string): Option<(string, string)> {
    var at := Find(s, pat, 0);
    if at > |s| then None else Some((s[..at], s[at + |pat|..]))
  }

  function Operator(k: nat): string {
    match k
    case 0 => "!="
    case 1 => "=="
    case 2 => ">="
    case 3 => "<="
    case 4 => ">"
    case _ => "<"
  }

  /** The first operator of the list that occurs decides, from the k-th on. */
  function CompareFrom(l: Library, s: string, k: nat): Option<bool>
    requires k <= 6
    decreases 6 - k
  {
    if k == 6 then None
    else match SplitAtFirst(s, Operator(k))
      case None => CompareFrom(l, s, k + 1)
      case Some((left, right)) =>
        var a, b := Trim(l, left), Trim(l, right);
        if k == 0 then Some(a != b) else if k == 1 then Some(a == b) else l.compare(Operator(k), a, b)
  }

  /** None when the text is not a condition. */
  function ParseIf(l: Library, s: string): Option<bool> {
    var word := l.lower(Trim(l, s));
    if word == "true" then Some(true)
    else if word == "false" then Some(false)
    else CompareFrom(l, s, 0)
  }

  function ParseListAll(l: Library, s: string, requireAll: bool): Option<bool> {
    var items := Codecs.SplitPipe(s);
    Some(if requireAll then forall i | i in items :: ParseIf(l, i) == Some(true)
         else exists i | i in items :: ParseIf(l, i) == Some(true))
  }

  function ParseIntoOutput(payload: string, result: Option<bool>): string {
    var parts := Codecs.SplitPipe(payload);
    if result == Some(true) then if |parts| == 2 then parts[0] else payload
    else if |parts| == 2 then parts[1] else ""
  }

  /** `{if(c):a|b}` yields exactly `a` or exactly `b`, whatever pipes they contain,
      once those are escaped and `a` does not end in a backslash. */
  lemma BranchIsChosen(a: string, b: string, result: Option<bool>)
    requires !Codecs.EndsInBackslash(a)
    ensures ParseIntoOutput(Codecs.JoinEscaped([a, b]), result) == if result == Some(true) then a else b
  {
    Codecs.SplitUndoesJoinIff([a, b]);
  }

  // ---- dispatch -----------------------------------------------------------

  /** The kinds of block, by lower-cased name. */
  datatype Kind =
    | Assignment | Silent | If | All | Any | Not | Break | Stop | Choose | Weighted | Calculation | Rendered |
    Effectful | Delete | Other

  function KindOf(lname: string): Kind {
    match lname
    case "=" | "let" | "var" => Assignment
    case "//" | "/" | "comment" | "debug" | "python" | "py" | "command" | "c" | "com" | "require"
       | "whitelist" | "blacklist" | "override" | "bypass" => Silent
    case "if" => If
    case "all" | "and" => All
    case "any" | "or" => Any
    case "not" => Not
    case "break" | "short" | "shortcircuit" => Break
    case "stop" | "halt" => Stop
    case "choose" => Choose
    case "random" | "rand" => Weighted
    case "math" | "m" | "calc" | "+" => Calculation
    case "range" | "rangef" | "ord" | "upper" | "lower" | "len" | "length" | "count" | "replace" | "sub" | "urlencode"
       | "urldecode" | "unix" | "strf" | "strftime" => Rendered
    case "embed" | "react" | "redirect" | "cd" | "cooldown" => Effectful
    case "delete" | "del" => Delete
    case _ => Other
  }

  function Truth(b: Option<bool>): string {
    if b.None? then "" else if b.value then "true" else "false"
  }

  /** The text and the change of the `call`-th dispatch. */
  function Decide(l: Library, env: Env, vars: map<string, string>, call: nat,
                  name: string, parameter: Option<string>, payload: Option<string>): (string, Change)
  {
    var p, q := parameter.GetOr(""), payload.GetOr("");
    var lname := l.lower(name);
    if name != "" && name[0] == '$' then ("", Assign(name[1..], q))
    else
      match KindOf(lname)
      case Assignment => ("", Assign(p, q))
      case Silent => ("", NoChange)
      case If => (ParseIntoOutput(q, ParseIf(l, p)), NoChange)
      case All => (ParseIntoOutput(q, ParseListAll(l, p, true)), NoChange)
      case Any => (ParseIntoOutput(q, ParseListAll(l, p, false)), NoChange)
      case Not => (Truth(Negated(ParseIf(l, q))), NoChange)
      case Break => ("", if ParseIf(l, p) == Some(true) then BreakWith(q) else NoChange)
      case Stop => ("", if ParseIf(l, p) == Some(true) then StopWith(q) else NoChange)
      case Choose => (Chosen(l, q, l.roll(call, Random.Seed(parameter))), NoChange)
      case Weighted => (RandomText(l, call, parameter, q), NoChange)
      case Calculation => (l.calculate(q).GetOr("<" + name + " error>"), NoChange)
      case Rendered => (l.render(call, name, parameter, payload), NoChange)
      case Effectful => ("", Emit(Effect(lname, parameter, payload)))
      case Delete =>
        ("", if parameter.None? || ParseIf(l, p) == Some(true) then Emit(Effect("delete", None, None))
             else NoChange)
      case Other => (Lookup(l, env, vars, call, name, parameter, payload), NoChange)
  }

  /** A roll below a sum of 0 stops the source; here the block is then empty. */
  function RandomText(l: Library, call: nat, parameter: Option<string>, payload: string): string {
    var seed := Random.Seed(parameter);
    Random.Picked(l, payload, seed, l.roll(call, seed)).GetOr("")
  }

  function Chosen(l: Library, payload: string, roll: nat): string {
    var parts := Codecs.SplitPipe(payload);
    Trim(l, parts[roll % |parts|])
  }

  function Negated(b: Option<bool>): Option<bool> {
    if b.Some? then Some(!b.value) else None
  }

  function Assign(name: string, value: string): Change {
    if name == "" then NoChange else SetVar(name, value)
  }

  /** Variables and unknown blocks. */
  function Lookup(l: Library, env: Env, vars: map<string, string>, call: nat,
                  name: string, parameter: Option<string>, payload: Option<string>): string
  {
    if name == "#" && payload.Some? then RandomText(l, call, parameter, payload.value)
    else if name != "" && name[0] == '#' then ""
    else
      var positional := if name != "" && OnlyDigits(name)
        then GetVar(l, env, vars, call, "args", Some(name), payload) else None;
      var found := if positional.Some? then positional
        else GetVar(l, env, vars, call, name, parameter, payload);
      found.GetOr(Lexer.Reconstruct(name, parameter, payload))
  }

  /** Arithmetic over the numbers `d`, its results shown by `format`. */
  function Calculator<N>(d: Math.Domain<N>, isSpace: char -> bool, format: N -> string): string -> Option<string> {
    (text: string) =>
      match Math.EvalMath(d, isSpace, text)
      case None => None
      case Some(v) => Some(format(v))
  }

  lemma CalculationName(lname: string)
    requires lname in {"math", "m", "calc", "+"}
    ensures KindOf(lname) == Calculation
  {
  }

  lemma CalculationDecides(l: Library, env: Env, vars: map<string, string>, call: nat, name: string, q: string)
    requires KindOf(l.lower(name)) == Calculation && (name != "" ==> name[0] != '$')
    ensures Decide(l, env, vars, call, name, None, Some(q)) == (l.calculate(q).GetOr("<" + name + " error>"), NoChange)
  {
    hide KindOf, Lookup, ParseIf, ParseListAll, ParseIntoOutput;
  }

  lemma CalculatorGives<N>(d: Math.Domain<N>, isSpace: char -> bool, format: N -> string, q: string)
    ensures Calculator(d, isSpace, format)(q) ==
              var v := Math.EvalMath(d, isSpace, q); if v.None? then None else Some(format(v.value))
  {
    hide Math.EvalMath;
  }

  /** An arithmetic block whose payload is a printed tree shows the tree's value, or the
      error under the name it was called by when there is none. */
  lemma ArithmeticBlock<N>(l: Library, env: Env, vars: map<string, string>, call: nat, name: string, q: string,
                           d: Math.Domain<N>, format: N -> string, e: Math.Expr)
    requires l.calculate == Calculator(d, l.isSpace, format)
    requires l.lower(name) in {"math", "m", "calc", "+"} && (name != "" ==> name[0] != '$')
    requires Math.WellFormed(e) && Math.Strip(l.isSpace, q) == Math.Show(e, 0)
    ensures var v := Math.Value(d, e);
            Decide(l, env, vars, call, name, None, Some(q)) ==
              (if v.Some? && d.isFinite(v.value) then format(v.value) else "<" + name + " error>", NoChange)
  {
    hide Decide, KindOf, Calculator, Math.EvalMath, Math.Value, Math.Show, Math.Strip, Math.WellFormed;
    CalculationName(l.lower(name));
    CalculationDecides(l, env, vars, call, name, q);
    CalculatorGives(d, l.isSpace, format, q);
    Math.EvaluatesTheTree(d, l.isSpace, q, e);
  }

  /** The engine with the repository's blocks. */
  function Standard(l: Library, env: Env): World {
    World((vars: map<string, string>, call: nat, name: string, p: Option<string>, q: Option<string>) =>
      Decide(l, env, vars, call, name, p, q))
  }
}
