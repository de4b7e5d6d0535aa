/**
 The arithmetic of `{math:...}`: the recursive-descent `MathParser`, over any
 number domain, against expression trees and their printed form.
 */
module Math {
  import opened Base

  /** The numbers: literals as read by the library, its operations, and the tests
      the parser makes. Nothing is assumed about them, so floats qualify. */
  datatype Domain<!N> = Domain(
    read: string -> Option<N>,
    binary: (char, N, N) -> N,
    negate: N -> N,
    isZero: N -> bool,
    isFinite: N -> bool)

  datatype Parsed<+N> = Fail | Ok(value: N, pos: nat)

  predicate Digit(c: char) {
    '0' <= c <= '9' || c == '.'
  }

  /** Dividing needs a divisor that is not zero. */
  function Apply<N>(d: Domain<N>, op: char, a: N, b: N): Option<N> {
    if op in "/%" && d.isZero(b) then None else Some(d.binary(op, a, b))
  }

  // ---- the grammar functions ----------------------------------------------

  function ParseExpr<N>(d: Domain<N>, s: string, i: nat): (r: Parsed<N>)
    requires i <= |s|
    ensures r.Ok? ==> i < r.pos <= |s|
    decreases |s| - i, 5
  {
    match ParseTerm(d, s, i)
    case Fail => Fail
    case Ok(v, j) => ExprTail(d, s, j, v)
  }

  function ExprTail<N>(d: Domain<N>, s: string, i: nat, v: N): (r: Parsed<N>)
    requires i <= |s|
    ensures r.Ok? ==> i <= r.pos <= |s|
    decreases |s| - i, 5
  {
    if i < |s| && s[i] in "+-" then
      match ParseTerm(d, s, i + 1)
      case Fail => Fail
      case Ok(rhs, j) => ExprTail(d, s, j, d.binary(s[i], v, rhs))
    else Ok(v, i)
  }

  function ParseTerm<N>(d: Domain<N>, s: string, i: nat): (r: Parsed<N>)
    requires i <= |s|
    ensures r.Ok? ==> i < r.pos <= |s|
    decreases |s| - i, 4
  {
    match ParseFactor(d, s, i)
    case Fail => Fail
    case Ok(v, j) => TermTail(d, s, j, v)
  }

  function TermTail<N>(d: Domain<N>, s: string, i: nat, v: N): (r: Parsed<N>)
    requires i <= |s|
    ensures r.Ok? ==> i <= r.pos <= |s|
    decreases |s| - i, 4
  {
    if i < |s| && s[i] in "*/%" then
      match ParseFactor(d, s, i + 1)
      case Fail => Fail
      case Ok(rhs, j) =>
        match Apply(d, s[i], v, rhs)
        case None => Fail
        case Some(w) => TermTail(d, s, j, w)
    else Ok(v, i)
  }

  function ParseFactor<N>(d: Domain<N>, s: string, i: nat): (r: Parsed<N>)
    requires i <= |s|
    ensures r.Ok? ==> i < r.pos <= |s|
    decreases |s| - i, 3
  {
    match ParseUnary(d, s, i)
    case Fail => Fail
    case Ok(v, j) =>
      if j < |s| && s[j] == '^' then
        match ParseFactor(d, s, j + 1)
        case Fail => Fail
        case Ok(e, k) => Ok(d.binary('^', v, e), k)
      else Ok(v, j)
  }

  function ParseUnary<N>(d: Domain<N>, s: string, i: nat): (r: Parsed<N>)
    requires i <= |s|
    ensures r.Ok? ==> i < r.pos <= |s|
    decreases |s| - i, 2
  {
    if i < |s| && s[i] in "+-" then
      match ParseUnary(d, s, i + 1)
      case Fail => Fail
      case Ok(v, j) => Ok(if s[i] == '-' then d.negate(v) else v, j)
    else ParsePrimary(d, s, i)
  }

  function ParsePrimary<N>(d: Domain<N>, s: string, i: nat): (r: Parsed<N>)
    requires i <= |s|
    ensures r.Ok? ==> i < r.pos <= |s|
    decreases |s| - i, 1
  {
    if i < |s| && s[i] == '(' then
      match ParseExpr(d, s, i + 1)
      case Fail => Fail
      case Ok(v, j) => if j < |s| && s[j] == ')' then Ok(v, j + 1) else Fail
    else
      var j := NumEnd(s, i);
      if j == i then Fail
      else match d.read(s[i..j])
        case None => Fail
        case Some(v) => Ok(v, j)
  }

  function NumEnd(s: string, i: nat): (j: nat)
    requires i <= |s|
    ensures i <= j <= |s|
    decreases |s| - i
  {
    if i < |s| && Digit(s[i]) then NumEnd(s, i + 1) else i
  }

  function Strip(isSpace: char -> bool, text: string): string {
    if text == "" then ""
    else (if isSpace(text[0]) then "" else [text[0]]) + Strip(isSpace, text[1..])
  }

  function EvalMath<N>(d: Domain<N>, isSpace: char -> bool, text: string): Option<N> {
    var s := Strip(isSpace, text);
    match ParseExpr(d, s, 0)
    case Fail => None
    case Ok(v, j) => if j == |s| && d.isFinite(v) then Some(v) else None
  }

  // ---- the parser object --------------------------------------------------

  class MathParser<N> {
    const d: Domain<N>
    const chars: string
    var pos: nat

    constructor (d: Domain<N>, chars: string)
      ensures this.d == d && this.chars == chars && pos == 0
    {
      this.d, this.chars, pos := d, chars, 0;
    }

    /** What a call must leave behind: the value and cursor of the grammar function. */
    ghost predicate Yields(r: Option<N>, p: Parsed<N>)
      reads this
    {
      match p
      case Fail => r == None && pos <= |chars|
      case Ok(v, j) => r == Some(v) && pos == j
    }

    function Peek(): Option<char>
      reads this
    {
      if pos < |chars| then Some(chars[pos]) else None
    }

    method Expr() returns (r: Option<N>)
      requires pos <= |chars|
      modifies this`pos
      ensures Yields(r, ParseExpr(d, chars, old(pos)))
      decreases |chars| - pos, 5
    {
      ghost var whole := ParseExpr(d, chars, pos);
      var t := Term();
      if t.None? { return None; }
      var v := t.value;
      while Peek().Some? && Peek().value in "+-"
        invariant old(pos) < pos <= |chars|
        invariant whole == ExprTail(d, chars, pos, v)
        decreases |chars| - pos
      {
        var op := Peek().value;
        pos := pos + 1;
        var rhs := Term();
        if rhs.None? { return None; }
        v := d.binary(op, v, rhs.value);
      }
      return Some(v);
    }

    method Term() returns (r: Option<N>)
      requires pos <= |chars|
      modifies this`pos
      ensures Yields(r, ParseTerm(d, chars, old(pos)))
      decreases |chars| - pos, 4
    {
      ghost var whole := ParseTerm(d, chars, pos);
      var f := Factor();
      if f.None? { return None; }
      var v := f.value;
      while Peek().Some? && Peek().value in "*/%"
        invariant old(pos) < pos <= |chars|
        invariant whole == TermTail(d, chars, pos, v)
        decreases |chars| - pos
      {
        var op := Peek().value;
        pos := pos + 1;
        var rhs := Factor();
        if rhs.None? { return None; }
        if op != '*' && d.isZero(rhs.value) { return None; }
        v := d.binary(op, v, rhs.value);
      }
      return Some(v);
    }

    method Factor() returns (r: Option<N>)
      requires pos <= |chars|
      modifies this`pos
      ensures Yields(r, ParseFactor(d, chars, old(pos)))
      decreases |chars| - pos, 3
    {
      var base := Unary();
      if base.None? { return None; }
      if Peek() == Some('^') {
        pos := pos + 1;
        var exp := Factor();
        if exp.None? { return None; }
        return Some(d.binary('^', base.value, exp.value));
      }
      return base;
    }

    method Unary() returns (r: Option<N>)
      requires pos <= |chars|
      modifies this`pos
      ensures Yields(r, ParseUnary(d, chars, old(pos)))
      decreases |chars| - pos, 2
    {
      if Peek() == Some('-') {
        pos := pos + 1;
        r := Unary();
        if r.Some? { r := Some(d.negate(r.value)); }
      } else if Peek() == Some('+') {
        pos := pos + 1;
        r := Unary();
      } else {
        r := Primary();
      }
    }

    method Primary() returns (r: Option<N>)
      requires pos <= |chars|
      modifies this`pos
      ensures Yields(r, ParsePrimary(d, chars, old(pos)))
      decreases |chars| - pos, 1
    {
      if Peek() == Some('(') {
        pos := pos + 1;
        r := Expr();
        if r.None? || Peek() != Some(')') { return None; }
        pos := pos + 1;
        return;
      }
      var start := pos;
      while Peek().Some? && Digit(Peek().value)
        invariant start <= pos <= |chars|
        invariant NumEnd(chars, start) == NumEnd(chars, pos)
        decreases |chars| - pos
      {
        pos := pos + 1;
      }
      if pos == start { return None; }
      return d.read(chars[start..pos]);
    }
  }

  /** `eval_math`: strip white space, parse, demand that nothing is left over. */
  method Evaluate<N>(d: Domain<N>, isSpace: char -> bool, expr: string) returns (r: Option<N>)
    ensures r == EvalMath(d, isSpace, expr)
  {
    var p := new MathParser(d, Strip(isSpace, expr));
    r := p.Expr();
    if r.None? || p.pos != |p.chars| || !d.isFinite(r.value) {
      return None;
    }
  }

  // ---- expression trees ---------------------------------------------------

  /** `Paren` is a redundant pair of parentheses; required ones are printed by `Show`. */
  datatype Expr =
    | Num(text: string)
    | Sign(op: char, arg: Expr)
    | Paren(body: Expr)
    | Bin(op: char, left: Expr, right: Expr)

  /** 0 sums, 1 products, 2 powers, 3 signed numbers and parentheses. */
  function Own(e: Expr): (level: nat)
    ensures level <= 3
  {
    if !e.Bin? then 3 else if e.op in "+-" then 0 else if e.op in "*/%" then 1 else 2
  }

  predicate WellFormed(e: Expr) {
    match e
    case Num(text) => text != "" && forall c | c in text :: Digit(c)
    case Sign(op, arg) => op in "+-" && WellFormed(arg)
    case Paren(body) => WellFormed(body)
    case Bin(op, l, r) => op in "+-*/%^" && WellFormed(l) && WellFormed(r)
  }

  /** Left operands bind at least as tightly as the operator, right ones tighter;
      powers the other way round, with a signed number as their base. */
  function LeftLevel(level: nat): nat {
    if level == 2 then 3 else level
  }

  function RightLevel(level: nat): nat {
    if level == 2 then 2 else level + 1
  }

  function Body(e: Expr): string
    decreases e, 0
  {
    match e
    case Num(text) => text
    case Sign(op, arg) => [op] + Show(arg, 3)
    case Paren(body) => "(" + (Show(body, 0) + ")")
    case Bin(op, l, r) => Show(l, LeftLevel(Own(e))) + ([op] + Show(r, RightLevel(Own(e))))
  }

  /** `e` where an operand of `level` is due: parenthesized only if it binds looser. */
  function Show(e: Expr, level: nat): string
    decreases e, 1
  {
    if Own(e) < level then "(" + (Body(e) + ")") else Body(e)
  }

  function Value<N>(d: Domain<N>, e: Expr): Option<N> {
    match e
    case Num(text) => d.read(text)
    case Sign(op, arg) =>
      (match Value(d, arg)
       case None => None
       case Some(v) => Some(if op == '-' then d.negate(v) else v))
    case Paren(body) => Value(d, body)
    case Bin(op, l, r) =>
      match (Value(d, l), Value(d, r))
      case (Some(a), Some(b)) => Apply(d, op, a, b)
      case _ => None
  }

  // ---- printing, then parsing ---------------------------------------------

  /** The grammar function that reads an operand of `level`. */
  function ParseAt<N>(d: Domain<N>, level: nat, s: string, i: nat): Parsed<N>
    requires i <= |s|
  {
    if level == 0 then ParseExpr(d, s, i)
    else if level == 1 then ParseTerm(d, s, i)
    else if level == 2 then ParseFactor(d, s, i)
    else ParseUnary(d, s, i)
  }

  /** What that function does next once the operand's value is known. */
  function Continue<N>(d: Domain<N>, level: nat, s: string, j: nat, v: Option<N>): Parsed<N>
    requires j <= |s|
  {
    if v.None? then Fail
    else if level == 0 then ExprTail(d, s, j, v.value)
    else if level == 1 then TermTail(d, s, j, v.value)
    else Ok(v.value, j)
  }

  /** The next character cannot extend an operand of `level`. */
  predicate Follows(s: string, j: nat, level: nat) {
    j < |s| ==> !Digit(s[j]) && (level <= 2 ==> s[j] != '^') && (level == 0 ==> s[j] !in "*/%")
  }

  lemma {:induction false} NumEndIs(text: string, s: string, i: nat, k: nat)
    requires k <= |text| && At(s, i, text) && (forall c | c in text :: Digit(c))
    requires Follows(s, i + |text|, 3)
    ensures NumEnd(s, i + k) == i + |text|
    decreases |text| - k
  {
    if k < |text| {
      assert s[i + k] == text[k];
      NumEndIs(text, s, i, k + 1);
    }
  }

  /** A level-3 operand is also an operand of every looser level. */
  lemma Loosen<N>(d: Domain<N>, from: nat, level: nat, s: string, i: nat, j: nat, v: Option<N>)
    requires level <= from <= 3 && i <= |s| && j <= |s| && Follows(s, j, level)
    requires ParseAt(d, from, s, i) == Continue(d, from, s, j, v)
    ensures ParseAt(d, level, s, i) == Continue(d, level, s, j, v)
    decreases from
  {
    if level < from {
      Loosen(d, from - 1, level, s, i, j, v);
    }
  }

  lemma ShowParses<N>(d: Domain<N>, e: Expr, level: nat, s: string, i: nat)
    requires WellFormed(e) && level <= 3 && At(s, i, Show(e, level))
    requires Follows(s, i + |Show(e, level)|, level)
    ensures ParseAt(d, level, s, i) == Continue(d, level, s, i + |Show(e, level)|, Value(d, e))
    decreases e, 3
  {
    hide ParseAt, Continue, Body, Value, WellFormed;
    if Own(e) < level {
      GroupParses(d, e, s, i);
      Loosen(d, 3, level, s, i, i + |Show(e, level)|, Value(d, e));
    } else {
      BodyParses(d, e, s, i, level);
      Loosen(d, Own(e), level, s, i, i + |Show(e, level)|, Value(d, e));
    }
  }

  lemma GroupParses<N>(d: Domain<N>, e: Expr, s: string, i: nat)
    requires WellFormed(e) && At(s, i, "(" + (Body(e) + ")"))
    ensures ParseAt(d, 3, s, i) == Continue(d, 3, s, i + |Body(e)| + 2, Value(d, e))
    decreases e, 2
  {
    hide ParseAt, Continue, Body, Value, WellFormed;
    var k := i + 1 + |Body(e)|;
    AtSplit(s, i, "(", Body(e) + ")");
    AtSplit(s, i + 1, Body(e), ")");
    AtChar(s, i, '(');
    AtChar(s, k, ')');
    BodyParses(d, e, s, i + 1, 0);
    Loosen(d, Own(e), 0, s, i + 1, k, Value(d, e));
    ParenthesesParse(d, s, i, k, Value(d, e));
  }

  lemma ParenthesesParse<N>(d: Domain<N>, s: string, i: nat, k: nat, v: Option<N>)
    requires i < k < |s| && s[i] == '(' && s[k] == ')'
    requires ParseAt(d, 0, s, i + 1) == Continue(d, 0, s, k, v)
    ensures ParseAt(d, 3, s, i) == Continue(d, 3, s, k + 1, v)
  {
    assert s[i] !in "+-" && s[k] !in "+-";
    assert ParseExpr(d, s, i + 1) == if v.None? then Fail else Ok(v.value, k);
    assert ParseUnary(d, s, i) == ParsePrimary(d, s, i);
  }

  lemma NumeralParses<N>(d: Domain<N>, text: string, s: string, i: nat)
    requires WellFormed(Num(text)) && At(s, i, text) && Follows(s, i + |text|, 3)
    ensures ParseAt(d, 3, s, i) == Continue(d, 3, s, i + |text|, d.read(text))
  {
    NumEndIs(text, s, i, 0);
    assert s[i] == text[0] && s[i] !in "+-";
    assert NumEnd(s, i) == i + |text|;
    assert ParseUnary(d, s, i) == ParsePrimary(d, s, i);
  }

  lemma SignParses<N>(d: Domain<N>, op: char, s: string, i: nat, j: nat, v: Option<N>)
    requires i < j <= |s| && s[i] == op && op in "+-"
    requires ParseAt(d, 3, s, i + 1) == Continue(d, 3, s, j, v)
    ensures ParseAt(d, 3, s, i) == Continue(d, 3, s, j,
              if v.None? then None else Some(if op == '-' then d.negate(v.value) else v.value))
  {
    assert ParseAt(d, 3, s, i) == ParseUnary(d, s, i);
    assert ParseAt(d, 3, s, i + 1) == ParseUnary(d, s, i + 1);
  }

  lemma BodyParses<N>(d: Domain<N>, e: Expr, s: string, i: nat, level: nat)
    requires WellFormed(e) && At(s, i, Body(e))
    requires level <= Own(e) && Follows(s, i + |Body(e)|, level)
    ensures ParseAt(d, Own(e), s, i) == Continue(d, Own(e), s, i + |Body(e)|, Value(d, e))
    decreases e, 1
  {
    hide ParseAt, Continue;
    match e
    case Num(text) =>
      NumeralParses(d, text, s, i);
    case Sign(op, arg) =>
      AtSplit(s, i, [op], Show(arg, 3));
      AtChar(s, i, op);
      ShowParses(d, arg, 3, s, i + 1);
      SignParses(d, op, s, i, i + |Body(e)|, Value(d, arg));
    case Paren(body) =>
      GroupParses(d, body, s, i);
    case Bin(_, _, _) =>
      BinParses(d, e, s, i, level);
  }

  lemma BinParses<N>(d: Domain<N>, e: Expr, s: string, i: nat, level: nat)
    requires e.Bin? && WellFormed(e) && At(s, i, Body(e))
    requires level <= Own(e) && Follows(s, i + |Body(e)|, level)
    ensures ParseAt(d, Own(e), s, i) == Continue(d, Own(e), s, i + |Body(e)|, Value(d, e))
    decreases e, 0
  {
    hide ParseAt, Continue, Show, At, Body, Follows, Apply;
    var Bin(op, l, r) := e;
    var own := Own(e);
    var k := i + |Show(l, LeftLevel(own))|;
    var j := i + |Body(e)|;
    BinLayout(e, s, i, level);
    ShowParses(d, l, LeftLevel(own), s, i);
    ShowParses(d, r, RightLevel(own), s, k + 1);
    OperandsCombine(d, op, own, s, i, k, j, Value(d, l), Value(d, r), level);
  }

  /** Where the operands and the operator of a printed binary tree stand. */
  lemma BinLayout(e: Expr, s: string, i: nat, level: nat)
    requires e.Bin? && WellFormed(e) && At(s, i, Body(e))
    requires level <= Own(e) && Follows(s, i + |Body(e)|, level)
    ensures var x, y := Show(e.left, LeftLevel(Own(e))), Show(e.right, RightLevel(Own(e)));
            var k := i + |x|;
            && k + 1 + |y| == i + |Body(e)| <= |s|
            && At(s, i, x) && s[k] == e.op && At(s, k + 1, y)
            && Follows(s, k, LeftLevel(Own(e))) && Follows(s, k + 1 + |y|, RightLevel(Own(e)))
  {
    hide Show, WellFormed;
    var x, y := Show(e.left, LeftLevel(Own(e))), Show(e.right, RightLevel(Own(e)));
    AtSplit(s, i, x, [e.op] + y);
    AtSplit(s, i + |x|, [e.op], y);
    AtChar(s, i + |x|, e.op);
    assert e.op in "+-*/%^" by { OperatorOf(e); }
  }

  lemma OperatorOf(e: Expr)
    requires e.Bin? && WellFormed(e)
    ensures e.op in "+-*/%^"
  {
  }

  function Combined<N>(d: Domain<N>, op: char, a: Option<N>, b: Option<N>): Option<N> {
    if a.Some? && b.Some? then Apply(d, op, a.value, b.value) else None
  }

  /** Two operands and the operator between them, whatever text they came from. */
  lemma OperandsCombine<N>(d: Domain<N>, op: char, own: nat, s: string, i: nat, k: nat, j: nat,
                           a: Option<N>, b: Option<N>, level: nat)
    requires op in "+-*/%^" && own == Own(Bin(op, Num(""), Num("")))
    requires i <= k < j <= |s| && s[k] == op && level <= own && Follows(s, j, level)
    requires ParseAt(d, LeftLevel(own), s, i) == Continue(d, LeftLevel(own), s, k, a)
    requires ParseAt(d, RightLevel(own), s, k + 1) == Continue(d, RightLevel(own), s, j, b)
    ensures ParseAt(d, own, s, i) == Continue(d, own, s, j, Combined(d, op, a, b))
  {
  }

  /** Every tree, printed with the fewest parentheses and any white space put in,
      evaluates to the value of the tree. */
  lemma EvaluatesTheTree<N>(d: Domain<N>, isSpace: char -> bool, text: string, e: Expr)
    requires WellFormed(e) && Strip(isSpace, text) == Show(e, 0)
    ensures EvalMath(d, isSpace, text) ==
              if Value(d, e).Some? && d.isFinite(Value(d, e).value) then Value(d, e) else None
  {
    var s := Show(e, 0);
    assert s[0..|s|] == s;
    ShowParses(d, e, 0, s, 0);
  }

  // ---- parsing, then printing ---------------------------------------------

  /** `e` accounts for `s[i..j]` read as an operand of `level` with value `v`. */
  ghost predicate Explains<N>(d: Domain<N>, e: Expr, level: nat, s: string, i: nat, j: nat, v: N) {
    && i <= j <= |s| && WellFormed(e) && level <= Own(e)
    && Body(e) == s[i..j] && Value(d, e) == Some(v)
  }

  lemma ShowIsBody(e: Expr, level: nat)
    requires level <= Own(e)
    ensures Show(e, level) == Body(e)
  {
  }

  lemma Cut(s: string, i: nat, k: nat, j: nat)
    requires i <= k < j <= |s|
    ensures s[i..k] + ([s[k]] + s[k + 1..j]) == s[i..j]
  {
  }

  lemma JoinExplained<N>(d: Domain<N>, op: char, l: Expr, r: Expr, s: string, i: nat, k: nat, j: nat,
                         a: N, b: N, v: N)
    requires op in "+-*/%^" && k < |s| && s[k] == op && k + 1 <= j
    requires Explains(d, l, LeftLevel(Own(Bin(op, l, r))), s, i, k, a)
    requires Explains(d, r, RightLevel(Own(Bin(op, l, r))), s, k + 1, j, b)
    requires Apply(d, op, a, b) == Some(v)
    ensures Explains(d, Bin(op, l, r), Own(Bin(op, l, r)), s, i, j, v)
  {
    Cut(s, i, k, j);
  }

  lemma {:induction false} NumEndDigits(s: string, i: nat)
    requires i <= |s|
    ensures forall c | c in s[i..NumEnd(s, i)] :: Digit(c)
    decreases |s| - i
  {
    if i < |s| && Digit(s[i]) {
      NumEndDigits(s, i + 1);
      assert s[i..NumEnd(s, i)] == [s[i]] + s[i + 1..NumEnd(s, i)];
    }
  }

  /** Whatever an operand parser accepts is the printed form of a tree with the
      value it returns; `ExplainTail` does the two left-associative loops. */
  lemma Explain<N>(d: Domain<N>, level: nat, s: string, i: nat) returns (e: Expr)
    requires level <= 3 && i <= |s| && ParseAt(d, level, s, i).Ok?
    ensures var p := ParseAt(d, level, s, i); Explains(d, e, level, s, i, p.pos, p.value)
    decreases |s| - i, 5 - level
  {
    hide Explains;
    var p := ParseAt(d, level, s, i);
    if level <= 1 {
      var first := ParseAt(d, level + 1, s, i);
      e := Explain(d, level + 1, s, i);
      ExplainsLooser(d, e, level, s, i, first.pos, first.value);
      e := ExplainTail(d, level, s, i, first.pos, e, first.value);
    } else if level == 2 {
      var base := ParseUnary(d, s, i);
      e := Explain(d, 3, s, i);
      if base.pos < |s| && s[base.pos] == '^' {
        var exp := ParseFactor(d, s, base.pos + 1);
        var r := Explain(d, 2, s, base.pos + 1);
        JoinExplained(d, '^', e, r, s, i, base.pos, exp.pos, base.value, exp.value, p.value);
        e := Bin('^', e, r);
      } else {
        ExplainsLooser(d, e, 2, s, i, p.pos, p.value);
      }
    } else if i < |s| && s[i] in "+-" {
      var arg := ParseUnary(d, s, i + 1);
      var a := Explain(d, 3, s, i + 1);
      e := Sign(s[i], a);
      SignExplained(d, a, s, i, arg.pos, arg.value);
    } else {
      e := ExplainPrimary(d, s, i);
    }
  }

  lemma ExplainsLooser<N>(d: Domain<N>, e: Expr, level: nat, s: string, i: nat, j: nat, v: N)
    requires Explains(d, e, level + 1, s, i, j, v)
    ensures Explains(d, e, level, s, i, j, v)
  {
  }

  lemma SignExplained<N>(d: Domain<N>, a: Expr, s: string, i: nat, j: nat, v: N)
    requires i < |s| && s[i] in "+-" && Explains(d, a, 3, s, i + 1, j, v)
    ensures Explains(d, Sign(s[i], a), 3, s, i, j, if s[i] == '-' then d.negate(v) else v)
  {
    ShowIsBody(a, 3);
    assert [s[i]] + s[i + 1..j] == s[i..j];
  }

  lemma ExplainPrimary<N>(d: Domain<N>, s: string, i: nat) returns (e: Expr)
    requires i <= |s| && ParsePrimary(d, s, i).Ok?
    ensures var p := ParsePrimary(d, s, i); Explains(d, e, 3, s, i, p.pos, p.value)
    decreases |s| - i, 1
  {
    if i < |s| && s[i] == '(' {
      var inner := ParseExpr(d, s, i + 1);
      var body := Explain(d, 0, s, i + 1);
      e := Paren(body);
      ShowIsBody(body, 0);
      assert s[inner.pos..inner.pos + 1] == ")";
      assert "(" + (s[i + 1..inner.pos] + ")") == s[i..inner.pos + 1];
    } else {
      e := Num(s[i..NumEnd(s, i)]);
      NumEndDigits(s, i);
    }
  }

  lemma ExplainTail<N>(d: Domain<N>, level: nat, s: string, i: nat, k: nat, soFar: Expr, v: N)
    returns (e: Expr)
    requires level <= 1 && i < k <= |s| && Explains(d, soFar, level, s, i, k, v)
    requires Continue(d, level, s, k, Some(v)).Ok?
    ensures var p := Continue(d, level, s, k, Some(v)); Explains(d, e, level, s, i, p.pos, p.value)
    decreases |s| - k, 5 - level
  {
    e := soFar;
    if k < |s| && s[k] in (if level == 0 then "+-" else "*/%") {
      var rhs := ParseAt(d, level + 1, s, k + 1);
      var r := Explain(d, level + 1, s, k + 1);
      var w := Apply(d, s[k], v, rhs.value).value;
      JoinExplained(d, s[k], soFar, r, s, i, k, rhs.pos, v, rhs.value, w);
      e := ExplainTail(d, level, s, i, rhs.pos, Bin(s[k], soFar, r), w);
    }
  }

  /** The parser accepts exactly the printed trees, with exactly their values. */
  lemma EvalMathIff<N>(d: Domain<N>, isSpace: char -> bool, text: string, v: N)
    ensures EvalMath(d, isSpace, text) == Some(v) <==>
            && d.isFinite(v)
            && exists e :: WellFormed(e) && Show(e, 0) == Strip(isSpace, text) && Value(d, e) == Some(v)
  {
    var s := Strip(isSpace, text);
    if EvalMath(d, isSpace, text) == Some(v) {
      var e := Explain(d, 0, s, 0);
      ShowIsBody(e, 0);
      assert s[0..|s|] == s;
      assert WellFormed(e) && Show(e, 0) == Strip(isSpace, text);
    }
    if e :| WellFormed(e) && Show(e, 0) == Strip(isSpace, text) && Value(d, e) == Some(v) {
      EvaluatesTheTree(d, isSpace, text, e);
    }
  }

  predicate NumeralsRead<N>(d: Domain<N>, e: Expr) {
    match e
    case Num(text) => d.read(text).Some?
    case Sign(_, arg) => NumeralsRead(d, arg)
    case Paren(body) => NumeralsRead(d, body)
    case Bin(_, l, r) => NumeralsRead(d, l) && NumeralsRead(d, r)
  }

  /** Some `/` or `%` in the tree has a right operand whose value is zero. */
  predicate DividesByZero<N>(d: Domain<N>, e: Expr) {
    match e
    case Num(_) => false
    case Sign(_, arg) => DividesByZero(d, arg)
    case Paren(body) => DividesByZero(d, body)
    case Bin(op, l, r) =>
      || DividesByZero(d, l) || DividesByZero(d, r)
      || (op in "/%" && Value(d, r).Some? && d.isZero(Value(d, r).value))
  }

  lemma {:induction false} NoValueMeansZeroDivisor<N>(d: Domain<N>, e: Expr)
    requires NumeralsRead(d, e)
    ensures Value(d, e).None? <==> DividesByZero(d, e)
  {
    match e
    case Num(_) =>
    case Sign(_, arg) => NoValueMeansZeroDivisor(d, arg);
    case Paren(body) => NoValueMeansZeroDivisor(d, body);
    case Bin(_, l, r) => NoValueMeansZeroDivisor(d, l); NoValueMeansZeroDivisor(d, r);
  }
}
