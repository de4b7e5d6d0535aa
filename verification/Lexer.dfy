/**
 The TagScript tokenizer: `tokenize` and `parse_block`.

 `Tokens` and `ParseBlock` say what the two cursor loops compute; the methods
 `Tokenize` and `ParseBlockLoop` are those loops.
 */
module Lexer {
  import opened Base

  datatype Token =
    | Literal(text: string)
    | Block(declaration: string, parameter: Option<string>, payload: Option<string>)

  // ---- specification ------------------------------------------------------

  function Delta(c: char): int {
    if c == '{' then 1 else if c == '}' then -1 else 0
  }

  /** From `i` on, the brace closing the last of `depth` open ones; |s| if none. */
  function CloseFrom(s: string, i: nat, depth: nat): (r: nat)
    requires i <= |s| && depth >= 1
    ensures i <= r <= |s|
    decreases |s| - i
  {
    if i == |s| || (s[i] == '}' && depth == 1) then i
    else CloseFrom(s, i + 1, depth + Delta(s[i]))
  }

  function Flush(pending: string): seq<Token> {
    if pending == "" then [] else [Literal(pending)]
  }

  predicate Has(s: string, i: nat, c: char) {
    i < |s| && s[i] == c
  }

  /** The tokens of `s` from `i` on, `pending` being literal text read so far. */
  function Tokens(s: string, i: nat, pending: string): seq<Token>
    requires i <= |s|
    decreases |s| - i
  {
    if i == |s| then Flush(pending)
    else if s[i] == '{' then
      if Has(s, i + 1, '{') then Tokens(s, i + 2, pending + "{")
      else
        var close := CloseFrom(s, i + 1, 1);
        if close == |s| then [Literal(pending + s[i..])]
        else Flush(pending) + [ParseBlock(s[i + 1..close])] + Tokens(s, close + 1, "")
    else if s[i] == '}' then
      Tokens(s, if Has(s, i + 1, '}') then i + 2 else i + 1, pending + "}")
    else Tokens(s, i + 1, pending + [s[i]])
  }

  function Tokenized(s: string): seq<Token> {
    Tokens(s, 0, "")
  }

  /** The first `:` or `(` from `i` on that no backslash escapes; |s| if none. */
  function HeadFrom(s: string, i: nat): (r: nat)
    ensures r == |s| || (i <= r < |s| && s[r] in ":(")
    decreases |s| - i
  {
    if i >= |s| then |s|
    else if s[i] == '\\' then HeadFrom(s, i + 2)
    else if s[i] in ":(" then i
    else HeadFrom(s, i + 1)
  }

  /** The unescaped `)` closing the last of `depth` open parentheses; |s| if none. */
  function ParamFrom(s: string, i: nat, depth: nat): (r: nat)
    requires depth >= 1
    ensures r == |s| || (i <= r < |s| && s[r] == ')')
    decreases |s| - i
  {
    if i >= |s| then |s|
    else if s[i] == '\\' then ParamFrom(s, i + 2, depth)
    else if s[i] == ')' then if depth == 1 then i else ParamFrom(s, i + 1, depth - 1)
    else ParamFrom(s, i + 1, if s[i] == '(' then depth + 1 else depth)
  }

  function ParseBlock(content: string): (b: Token)
    ensures b.Block?
  {
    var head := HeadFrom(content, 0);
    if head == |content| then Block(content, None, None)
    else if content[head] == ':' then Block(content[..head], None, Some(content[head + 1..]))
    else
      var close := ParamFrom(content, head + 1, 1);
      if close == |content| then Block(content, None, None)
      else Block(content[..head], Some(content[head + 1..close]), AfterParameter(content, close + 1))
  }

  /** Only a colon right after the parameter starts a payload; other text is lost. */
  function AfterParameter(content: string, i: nat): Option<string> {
    if Has(content, i, ':') then Some(content[i + 1..]) else None
  }

  // ---- the loops ----------------------------------------------------------

  method Tokenize(input: string) returns (tokens: seq<Token>)
    ensures tokens == Tokenized(input)
  {
    tokens := [];
    var currentLiteral := "";
    var i := 0;
    while i < |input|
      invariant i <= |input|
      invariant tokens + Tokens(input, i, currentLiteral) == Tokenized(input)
    {
      if input[i] == '{' {
        i := i + 1;
        if i < |input| && input[i] == '{' {
          i := i + 1;
          currentLiteral := currentLiteral + "{";
        } else {
          ghost var pending := currentLiteral;
          var content, closed, end := ReadBlock(input, i);
          if closed {
            tokens := tokens + Flush(currentLiteral);
            currentLiteral := "";
            var block := ParseBlockLoop(content);
            tokens := tokens + [block];
          } else {
            // Unclosed block: the whole remainder is literal text.
            currentLiteral := currentLiteral + "{" + content;
            assert "{" + content == input[i - 1..];
            assert currentLiteral == pending + input[i - 1..];
          }
          i := end;
        }
      } else if input[i] == '}' {
        i := i + 1;
        if i < |input| && input[i] == '}' {
          i := i + 1;
        }
        currentLiteral := currentLiteral + "}";
      } else {
        currentLiteral := currentLiteral + [input[i]];
        i := i + 1;
      }
    }
    tokens := tokens + Flush(currentLiteral);
  }

  /** The inner loop: read until the matching closing brace, tracking depth. */
  method ReadBlock(input: string, start: nat) returns (content: string, closed: bool, i: nat)
    requires start <= |input|
    ensures var close := CloseFrom(input, start, 1);
            && content == input[start..close]
            && closed == (close < |input|)
            && i == if closed then close + 1 else close
  {
    content, closed, i := "", false, start;
    var depth := 1;
    while i < |input|
      invariant start <= i <= |input| && depth >= 1
      invariant content == input[start..i]
      invariant CloseFrom(input, start, 1) == CloseFrom(input, i, depth)
    {
      var c := input[i];
      i := i + 1;
      if c == '}' {
        depth := depth - 1;
        if depth == 0 {
          closed := true;
          return;
        }
      } else if c == '{' {
        depth := depth + 1;
      }
      content := content + [c];
    }
  }

  /** Where the scan of `parse_block` stands: before the head is found, or inside the
      parameter that opened at `start`. */
  ghost predicate Scanning(content: string, i: nat, depth: nat, skip: bool, start: Option<nat>) {
    var next := if skip then i + 1 else i;
    && i <= |content| && (depth == 0 <==> start.None?)
    && if start.None? then HeadFrom(content, 0) == HeadFrom(content, next)
       else
         && start.value < i && HeadFrom(content, 0) == start.value && content[start.value] == '('
         && ParamFrom(content, start.value + 1, 1) == ParamFrom(content, next, depth)
  }

  lemma ScanSteps(content: string, i: nat, depth: nat, skip: bool, start: Option<nat>)
    requires Scanning(content, i, depth, skip, start) && i < |content|
    ensures var c := content[i];
            if skip then Scanning(content, i + 1, depth, false, start)
            else if c == '\\' then Scanning(content, i + 1, depth, true, start)
            else if c == '(' then Scanning(content, i + 1, depth + 1, false, if depth == 0 then Some(i) else start)
            else if c == ')' && depth > 1 then Scanning(content, i + 1, depth - 1, false, start)
            else if (c == ':' && depth == 0) || (c == ')' && depth == 1) then true
            else Scanning(content, i + 1, depth, false, start)
  {
  }

  lemma ScanEnds(content: string, i: nat, depth: nat, start: Option<nat>)
    requires Scanning(content, i, depth, false, start) && i < |content|
    ensures content[i] == ':' && depth == 0 ==>
              ParseBlock(content) == Block(content[..i], None, Some(content[i + 1..]))
    ensures content[i] == ')' && depth == 1 ==>
              ParseBlock(content)
              == Block(content[..start.value], Some(content[start.value + 1..i]), AfterParameter(content, i + 1))
  {
  }

  lemma ScanRunsOut(content: string, depth: nat, skip: bool, start: Option<nat>)
    requires Scanning(content, |content|, depth, skip, start)
    ensures ParseBlock(content) == Block(content, None, None)
  {
  }

  method ParseBlockLoop(content: string) returns (token: Token)
    ensures token == ParseBlock(content)
  {
    hide ParseBlock, Scanning;
    var depth, skip, i: nat := 0, false, 0;
    var paramStart: Option<nat> := None;
    assert Scanning(content, 0, 0, false, None) by { ScanBegins(content); }
    while i < |content|
      invariant i <= |content|
      invariant depth >= 0 && (depth == 0 <==> paramStart.None?)
      invariant paramStart.Some? ==> paramStart.value < i
      invariant Scanning(content, i, depth, skip, paramStart)
    {
      ScanSteps(content, i, depth, skip, paramStart);
      var c := content[i];
      if skip {
        skip := false;
      } else if c == '\\' {
        skip := true;
      } else if c == ':' && depth == 0 {
        ScanEnds(content, i, depth, paramStart);
        return Block(content[..i], None, Some(content[i + 1..]));
      } else if c == '(' {
        if depth == 0 && paramStart.None? {
          paramStart := Some(i);
        }
        depth := depth + 1;
      } else if c == ')' && depth > 0 {
        depth := depth - 1;
        if depth == 0 {
          ScanEnds(content, i, 1, paramStart);
          var payload: Option<string> := None;
          if i + 1 < |content| && content[i + 1] == ':' {
            payload := Some(content[i + 2..]);
          }
          return Block(content[..paramStart.value], Some(content[paramStart.value + 1..i]), payload);
        }
      }
      i := i + 1;
    }
    ScanRunsOut(content, depth, skip, paramStart);
    return Block(content, None, None);
  }

  lemma ScanBegins(content: string)
    ensures Scanning(content, 0, 0, false, None)
  {
  }

  // ---- brace balance ------------------------------------------------------

  /** Opening minus closing braces. */
  function Depth(s: string): int {
    if s == "" then 0 else Depth(s[..|s| - 1]) + Delta(s[|s| - 1])
  }

  ghost predicate Balanced(s: string) {
    Depth(s) == 0 && forall k | 0 <= k <= |s| :: Depth(s[..k]) >= 0
  }

  lemma DepthStep(s: string, k: nat)
    requires k < |s|
    ensures Depth(s[..k + 1]) == Depth(s[..k]) + Delta(s[k])
  {
    assert s[..k + 1][..k] == s[..k];
  }

  /** Scanning from `from` stops no earlier than the text that never closes more
      than it opens: after `k` characters the scan is at depth 1 plus its balance. */
  lemma {:induction false} ScanPasses(s: string, from: nat, content: string, k: nat)
    requires from + |content| <= |s| && s[from..from + |content|] == content
    requires forall j | 0 <= j <= |content| :: Depth(content[..j]) >= 0
    requires k <= |content|
    ensures CloseFrom(s, from, 1) == CloseFrom(s, from + k, 1 + Depth(content[..k]))
  {
    if k > 0 {
      ScanPasses(s, from, content, k - 1);
      DepthStep(content, k - 1);
      assert s[from + k - 1] == content[k - 1];
    }
  }

  /** The text a scan from depth 1 steps over opens as much as it closes. */
  lemma {:induction false} ScannedIsBalanced(s: string, from: nat)
    requires from <= |s| && CloseFrom(s, from, 1) < |s|
    ensures Balanced(s[from..CloseFrom(s, from, 1)])
  {
    var close := CloseFrom(s, from, 1);
    var content := s[from..close];
    var k := 0;
    while k < |content|
      invariant k <= |content|
      invariant forall j | 0 <= j <= k :: Depth(content[..j]) >= 0
      invariant CloseFrom(s, from + k, 1 + Depth(content[..k])) == close
    {
      DepthStep(content, k);
      assert s[from + k] == content[k];
      k := k + 1;
    }
    assert content[..k] == content;
  }

  // ---- printing -----------------------------------------------------------

  function Escape(text: string): string {
    if text == "" then ""
    else (if text[0] in "{}" then [text[0], text[0]] else [text[0]]) + Escape(text[1..])
  }

  function PayloadText(payload: Option<string>): string {
    if payload.Some? then ":" + payload.value else ""
  }

  /** A block's source between its braces. */
  function Inner(name: string, parameter: Option<string>, payload: Option<string>): string {
    if parameter.Some? then name + ("(" + (parameter.value + (")" + PayloadText(payload))))
    else name + PayloadText(payload)
  }

  /** `reconstruct`: how an unknown block is put back into the text. */
  function Reconstruct(name: string, parameter: Option<string>, payload: Option<string>): string {
    "{" + Inner(name, parameter, payload) + "}"
  }

  function PrintToken(t: Token): string {
    match t
    case Literal(text) => Escape(text)
    case Block(d, p, q) => Reconstruct(d, p, q)
  }

  function Print(tokens: seq<Token>): string {
    if tokens == [] then ""
    else PrintToken(tokens[0]) + Print(tokens[1..])
  }

  // ---- round trips --------------------------------------------------------

  /** A token whose printed form is read back as that token. */
  ghost predicate Printable(t: Token) {
    match t
    case Literal(text) => text != ""
    case Block(d, p, q) =>
      var inner := Inner(d, p, q);
      Balanced(inner) && !Has(inner, 0, '{') && ParseBlock(inner) == t
  }

  /** Printable tokens only, and no two literals side by side. */
  ghost predicate Canonical(tokens: seq<Token>) {
    tokens != [] ==>
      && Printable(tokens[0])
      && (tokens[0].Literal? && |tokens| > 1 ==> tokens[1].Block?)
      && Canonical(tokens[1..])
  }

  lemma {:induction false} EscapedTextIsRead(s: string, i: nat, text: string, rest: string, pending: string)
    requires i <= |s| && s[i..] == Escape(text) + rest
    ensures Tokens(s, i, pending) == Tokens(s, |s| - |rest|, pending + text)
    decreases text
  {
    if text == "" {
      assert pending + text == pending;
    } else {
      var n := if text[0] in "{}" then 2 else 1;
      assert s[i] == s[i..][0] == text[0];
      assert n == 2 ==> s[i + 1] == s[i..][1];
      assert s[i + n..] == s[i..][n..] == Escape(text[1..]) + rest;
      EscapedTextIsRead(s, i + n, text[1..], rest, pending + [text[0]]);
      assert pending + [text[0]] + text[1..] == pending + text;
    }
  }

  /** Where a printed block sits in the text it opens. */
  lemma BlockLayout(s: string, i: nat, inner: string, rest: string)
    requires i <= |s| && s[i..] == "{" + inner + "}" + rest
    ensures var close := i + 1 + |inner|;
            && close + 1 == |s| - |rest|
            && s[i] == '{' && s[close] == '}' && s[i + 1..close] == inner
            && (Has(s, i + 1, '{') ==> Has(inner, 0, '{'))
  {
    var close := i + 1 + |inner|;
    assert s[i] == s[i..][0];
    assert s[close] == s[i..][1 + |inner|];
    assert s[i + 1] == s[i..][1];
    assert s[i..][1..1 + |inner|] == inner;
    SliceOfSuffix(s, i, 1, 1 + |inner|);
  }

  lemma BlockIsRead(s: string, i: nat, b: Token, rest: string, pending: string)
    requires b.Block? && Printable(b)
    requires i <= |s| && s[i..] == PrintToken(b) + rest
    ensures Tokens(s, i, pending) == Flush(pending) + [b] + Tokens(s, |s| - |rest|, "")
  {
    InnerIsRead(s, i, Inner(b.declaration, b.parameter, b.payload), rest, pending);
  }

  lemma BraceIsClosed(s: string, from: nat, inner: string)
    requires from + |inner| < |s| && s[from..from + |inner|] == inner && s[from + |inner|] == '}'
    requires Balanced(inner)
    ensures CloseFrom(s, from, 1) == from + |inner|
  {
    ScanPasses(s, from, inner, |inner|);
    hide Depth;
    assert inner[..|inner|] == inner;
  }

  lemma BlockIsNext(s: string, i: nat, pending: string)
    requires i < |s| && s[i] == '{' && !Has(s, i + 1, '{') && CloseFrom(s, i + 1, 1) < |s|
    ensures var close := CloseFrom(s, i + 1, 1);
            Tokens(s, i, pending) == Flush(pending) + [ParseBlock(s[i + 1..close])] + Tokens(s, close + 1, "")
  {
    hide CloseFrom, ParseBlock;
  }

  lemma InnerIsRead(s: string, i: nat, inner: string, rest: string, pending: string)
    requires Balanced(inner) && !Has(inner, 0, '{')
    requires i <= |s| && s[i..] == "{" + inner + "}" + rest
    ensures Tokens(s, i, pending) == Flush(pending) + [ParseBlock(inner)] + Tokens(s, |s| - |rest|, "")
  {
    hide *;
    BlockLayout(s, i, inner, rest);
    BraceIsClosed(s, i + 1, inner);
    BlockIsNext(s, i, pending);
  }

  lemma SuffixAfter(s: string, i: nat, head: string, rest: string)
    requires i <= |s| && s[i..] == head + rest
    ensures i <= |s| - |rest| && s[|s| - |rest|..] == rest
  {
    assert s[|s| - |rest|..] == s[i..][|head|..];
  }

  /** The unread part of `s` is `text`. */
  ghost predicate Remains(s: string, i: nat, text: string) {
    i <= |s| && s[i..] == text
  }

  lemma CanonicalStep(tokens: seq<Token>)
    ensures Canonical(tokens) && tokens != [] ==>
              && Printable(tokens[0]) && Canonical(tokens[1..])
              && (tokens[0].Literal? ==> tokens[0].text != "" && (tokens[1..] != [] ==> tokens[1..][0].Block?))
    ensures tokens != [] ==> Print(tokens) == PrintToken(tokens[0]) + Print(tokens[1..])
  {
  }

  lemma {:induction false} RoundTripFrom(s: string, i: nat, tokens: seq<Token>, pending: string)
    requires Canonical(tokens)
    requires pending != "" && tokens != [] ==> tokens[0].Block?
    requires i <= |s| && Remains(s, i, Print(tokens))
    ensures Tokens(s, i, pending) == Flush(pending) + tokens
    decreases |tokens|
  {
    hide *;
    if tokens == [] {
      NothingRemains(s, i, pending);
    } else {
      CanonicalStep(tokens);
      var t, rest := tokens[0], tokens[1..];
      var next := |s| - |Print(rest)|;
      FirstTokenIsRead(s, i, t, Print(rest), pending);
      Glue(pending, tokens);
      if t.Literal? {
        RoundTripFrom(s, next, rest, t.text);
      } else {
        RoundTripFrom(s, next, rest, "");
      }
    }
  }

  lemma NothingRemains(s: string, i: nat, pending: string)
    requires i <= |s| && Remains(s, i, Print([]))
    ensures Tokens(s, i, pending) == Flush(pending) + []
  {
    assert i == |s|;
  }

  lemma Glue(pending: string, tokens: seq<Token>)
    requires tokens != []
    requires tokens[0].Literal? ==> pending == "" && tokens[0].text != ""
    ensures var t, rest := tokens[0], tokens[1..];
            Flush(pending) + tokens ==
              if t.Literal? then Flush(t.text) + rest else Flush(pending) + [t] + (Flush("") + rest)
  {
    assert tokens == [tokens[0]] + tokens[1..];
  }

  /** One step of the round trip: a literal becomes pending, a block is emitted. */
  lemma FirstTokenIsRead(s: string, i: nat, t: Token, rest: string, pending: string)
    requires Printable(t) && (t.Literal? ==> pending == "")
    requires i <= |s| && Remains(s, i, PrintToken(t) + rest)
    ensures i <= |s| - |rest| && Remains(s, |s| - |rest|, rest)
    ensures t.Literal? ==> t.text != ""
    ensures var next := |s| - |rest|;
            Tokens(s, i, pending) ==
              if t.Literal? then Tokens(s, next, t.text)
              else Flush(pending) + [t] + Tokens(s, next, "")
  {
    SuffixAfter(s, i, PrintToken(t), rest);
    if t.Literal? {
      EscapedTextIsRead(s, i, t.text, rest, pending);
      assert pending + t.text == t.text;
    } else {
      BlockIsRead(s, i, t, rest, pending);
    }
  }

  /** Printing a canonical token list and tokenizing it gives the list back. */
  lemma PrintThenTokenize(tokens: seq<Token>)
    ensures Canonical(tokens) ==> Tokenized(Print(tokens)) == tokens
  {
    if Canonical(tokens) {
      RoundTripFrom(Print(tokens), 0, tokens, "");
    }
  }

  /** Text with every brace doubled is read as that text, in one literal. */
  lemma EscapedTextIsOneLiteral(text: string)
    requires text != ""
    ensures Tokenized(Escape(text)) == [Literal(text)]
  {
    EscapedTextIsRead(Escape(text), 0, text, "", "");
    assert "" + text == text;
  }

  // ---- which blocks are printable, in syntax ------------------------------

  /** No `:` or `(` outside an escape, and no backslash left dangling. */
  predicate PlainHead(d: string, i: nat)
    requires i <= |d|
    decreases |d| - i
  {
    i == |d| ||
    (if d[i] == '\\' then i + 2 <= |d| && PlainHead(d, i + 2)
     else d[i] !in ":(" && PlainHead(d, i + 1))
  }

  /** From `i` on, `p` closes all but one of `depth` parentheses, escapes complete. */
  predicate ParenBalanced(p: string, i: nat, depth: nat)
    requires i <= |p|
    decreases |p| - i
  {
    if i == |p| then depth == 1
    else if p[i] == '\\' then i + 2 <= |p| && ParenBalanced(p, i + 2, depth)
    else if p[i] == ')' then depth >= 2 && ParenBalanced(p, i + 1, depth - 1)
    else ParenBalanced(p, i + 1, if p[i] == '(' then depth + 1 else depth)
  }

  lemma {:induction false} PlainHeadIsPassed(d: string, i: nat, s: string)
    requires i <= |d| && PlainHead(d, i) && d <= s
    ensures HeadFrom(s, i) == HeadFrom(s, |d|)
    decreases |d| - i
  {
    if i < |d| {
      PlainHeadIsPassed(d, if d[i] == '\\' then i + 2 else i + 1, s);
    }
  }

  lemma {:induction false} ParenBalancedCloses(p: string, i: nat, depth: nat, s: string, from: nat)
    requires depth >= 1 && i <= |p| && ParenBalanced(p, i, depth)
    requires from + |p| < |s| && s[from..from + |p|] == p && s[from + |p|] == ')'
    ensures ParamFrom(s, from + i, depth) == from + |p|
    decreases |p| - i
  {
    if i < |p| {
      assert s[from + i] == p[i];
      ParenBalancedCloses(p, if p[i] == '\\' then i + 2 else i + 1,
        if p[i] == ')' then depth - 1 else if p[i] == '(' then depth + 1 else depth, s, from);
    }
  }

  /** The syntactic reading of `Printable`: a plain name, a parameter with balanced
      parentheses, braces balanced across the whole block. The payload is free. */
  lemma SyntaxIsPrintable(d: string, p: Option<string>, q: Option<string>)
    requires PlainHead(d, 0) && !Has(d, 0, '{')
    requires p.Some? ==> ParenBalanced(p.value, 0, 1)
    requires Balanced(Inner(d, p, q))
    ensures Printable(Block(d, p, q))
  {
    var inner := Inner(d, p, q);
    assert ParseBlock(inner) == Block(d, p, q) by {
      if p.Some? {
        WithParameterIsParsed(d, p.value, q);
      } else {
        NoParameterIsParsed(d, q);
      }
    }
    hide ParseBlock, Balanced, PlainHead, ParenBalanced;
    assert inner != "" ==> inner[0] == if d != "" then d[0] else if p.Some? then '(' else ':';
  }

  lemma WithParameterIsParsed(d: string, p: string, q: Option<string>)
    requires PlainHead(d, 0) && ParenBalanced(p, 0, 1)
    ensures ParseBlock(Inner(d, Some(p), q)) == Block(d, Some(p), q)
  {
    hide ParseBlock, HeadFrom, ParamFrom, Inner;
    var inner := Inner(d, Some(p), q);
    InnerWithParameter(d, p, q);
    PlainHeadIsPassed(d, 0, inner);
    ParenBalancedCloses(p, 0, 1, inner, |d| + 1);
    PayloadIsRead(inner, |d| + 1 + |p|, q);
    ParameterIsParsed(inner, d, p, q);
  }

  lemma ParameterIsParsed(content: string, d: string, p: string, q: Option<string>)
    requires var close := |d| + 1 + |p|;
             && d <= content && close < |content|
             && content[..|d|] == d && content[|d|] == '(' && content[|d| + 1..close] == p
             && HeadFrom(content, 0) == HeadFrom(content, |d|)
             && ParamFrom(content, |d| + 1, 1) == close
             && AfterParameter(content, close + 1) == q
    ensures ParseBlock(content) == Block(d, Some(p), q)
  {
  }

  lemma HeadStops(content: string, i: nat)
    requires i <= |content| && (i < |content| ==> content[i] in ":(")
    ensures HeadFrom(content, i) == i
  {
  }

  lemma PayloadIsSplitOff(content: string, d: string, q: string)
    requires content == d + (":" + q) && HeadFrom(content, 0) == |d|
    ensures ParseBlock(content) == Block(d, None, Some(q))
  {
    hide HeadFrom;
    assert content[..|d|] == d && content[|d| + 1..] == q;
  }

  lemma NameAlone(content: string)
    requires HeadFrom(content, 0) == |content|
    ensures ParseBlock(content) == Block(content, None, None)
  {
    hide HeadFrom;
  }

  lemma NoParameterIsParsed(d: string, q: Option<string>)
    requires PlainHead(d, 0)
    ensures ParseBlock(Inner(d, None, q)) == Block(d, None, q)
  {
    var inner := Inner(d, None, q);
    assert inner == d + PayloadText(q);
    assert q.None? ==> inner == d;
    hide ParseBlock, HeadFrom, Inner;
    PlainHeadIsPassed(d, 0, inner);
    HeadStops(inner, |d|);
    if q.Some? {
      PayloadIsSplitOff(inner, d, q.value);
    } else {
      NameAlone(inner);
    }
  }

  lemma InnerWithParameter(d: string, p: string, q: Option<string>)
    ensures var inner := Inner(d, Some(p), q);
            var close := |d| + 1 + |p|;
            && d <= inner && close < |inner|
            && inner[..|d|] == d && inner[|d|] == '('
            && inner[|d| + 1..close] == p && inner[close] == ')'
            && inner[close + 1..] == PayloadText(q)
  {
    FivePieces(d, '(', p, ')', PayloadText(q));
  }

  lemma FivePieces(d: string, a: char, p: string, b: char, q: string)
    ensures var s, k := d + ([a] + (p + ([b] + q))), |d| + 1 + |p|;
            && d <= s && k < |s| && s[..|d|] == d && s[|d|] == a && s[|d| + 1..k] == p && s[k] == b && s[k + 1..] == q
  {
    var r := p + ([b] + q);
    var s := d + ([a] + r);
    assert s[|d| + 1..] == r;
    SliceOfSuffix(s, |d| + 1, 0, |p|);
    assert r[0..|p|] == p;
    assert s[|d| + 1..][|p| + 1..] == r[|p| + 1..] == q;
  }

  lemma PayloadIsRead(content: string, close: nat, q: Option<string>)
    requires close < |content| && content[close + 1..] == PayloadText(q)
    ensures AfterParameter(content, close + 1) == q
  {
    if close + 1 < |content| {
      assert content[close + 1] == content[close + 1..][0];
      assert content[close + 2..] == content[close + 1..][1..];
    }
  }

  // ---- when a block survives verbatim -------------------------------------

  /** The parameter closes and something other than a colon follows it. */
  predicate DropsTail(content: string) {
    var head := HeadFrom(content, 0);
    && Has(content, head, '(')
    && var close := ParamFrom(content, head + 1, 1);
       close + 1 < |content| && content[close + 1] != ':'
  }

  function Reprinted(content: string): string {
    var b := ParseBlock(content);
    Inner(b.declaration, b.parameter, b.payload)
  }

  lemma CutAround(c: string, head: nat, close: nat)
    requires head < close < |c|
    ensures c[..head] + [c[head]] + c[head + 1..close] + [c[close]] == c[..close + 1]
  {
    assert c[..head] + [c[head]] == c[..head + 1];
    assert c[..head + 1] + c[head + 1..close] == c[..close];
  }

  lemma ReprintedParameter(content: string, head: nat, close: nat, q: Option<string>)
    requires head < close < |content| && content[head] == '(' && content[close] == ')'
    ensures Inner(content[..head], Some(content[head + 1..close]), q)
            == content[..close + 1] + PayloadText(q)
  {
    hide PayloadText;
    var name, p, tail := content[..head], content[head + 1..close], PayloadText(q);
    CutAround(content, head, close);
    Assoc(name + "(" + p, ")", tail);
    Assoc(name + "(", p, ")" + tail);
    Assoc(name, "(", p + (")" + tail));
  }

  /** An unknown block comes back verbatim if and only if nothing but a colon
      follows its parameter. */
  lemma ReconstructIsVerbatimIff(content: string)
    ensures Reprinted(content) == content <==> !DropsTail(content)
  {
    hide HeadFrom, ParamFrom;
    var head := HeadFrom(content, 0);
    if Has(content, head, '(') && ParamFrom(content, head + 1, 1) < |content| {
      ReprintedTail(content, head, ParamFrom(content, head + 1, 1));
    } else if head < |content| && content[head] == ':' {
      PayloadStays(content, head);
    }
  }

  lemma PayloadStays(content: string, head: nat)
    requires head < |content| && content[head] == ':'
    ensures Inner(content[..head], None, Some(content[head + 1..])) == content
  {
    assert content == content[..head] + (":" + content[head + 1..]);
  }

  lemma ReprintedTail(content: string, head: nat, close: nat)
    requires head == HeadFrom(content, 0) && Has(content, head, '(')
    requires close == ParamFrom(content, head + 1, 1) < |content|
    ensures Reprinted(content) == content <==> close + 1 == |content| || content[close + 1] == ':'
  {
    hide HeadFrom, ParamFrom, Inner, PayloadText, AfterParameter;
    var q := AfterParameter(content, close + 1);
    ReprintedParameter(content, head, close, q);
    KeptTail(content, close + 1, q);
  }

  lemma KeptTail(content: string, i: nat, q: Option<string>)
    requires i <= |content| && q == AfterParameter(content, i)
    ensures content[..i] + PayloadText(q) == content <==> i == |content| || content[i] == ':'
  {
    assert content == content[..i] + content[i..];
    if i < |content| && content[i] == ':' {
      assert content[i..] == ":" + content[i + 1..];
    }
  }

  /** `{a(b)c}`, left verbatim according to the source's comment, loses its `c`. */
  lemma TailIsLost()
    ensures DropsTail("a(b)c") && Reprinted("a(b)c") == "a(b)"
  {
    var c := "a(b)c";
    assert HeadFrom(c, 0) == 1;
    assert ParamFrom(c, 2, 1) == 3;
    assert c[..1] == "a" && c[2..3] == "b";
  }

  // ---- shape of every token list ------------------------------------------

  /** How far a block's pieces shrink: why lazy re-tokenizing terminates. */
  ghost predicate Below(t: Token, n: nat) {
    t.Block? ==>
      && (t.parameter.Some? ==> |t.parameter.value| + 1 < n)
      && (t.payload.Some? ==> |t.payload.value| + 1 < n)
  }

  ghost predicate WellShaped(tokens: seq<Token>, n: nat) {
    tokens != [] ==>
      && Below(tokens[0], n)
      && (tokens[0].Literal? ==> tokens[0].text != "" && (|tokens| > 1 ==> tokens[1].Block?))
      && WellShaped(tokens[1..], n)
  }

  lemma ParseBlockShrinks(content: string)
    ensures Below(ParseBlock(content), |content| + 2)
  {
  }

  /** No block of `s` from `i` on drops text behind its parameter. */
  ghost predicate NothingDropped(s: string, i: nat)
    requires i <= |s|
    decreases |s| - i
  {
    if i == |s| then true
    else if s[i] == '{' then
      if Has(s, i + 1, '{') then NothingDropped(s, i + 2)
      else
        var close := CloseFrom(s, i + 1, 1);
        close < |s| ==> !DropsTail(s[i + 1..close]) && NothingDropped(s, close + 1)
    else NothingDropped(s, if s[i] == '}' && Has(s, i + 1, '}') then i + 2 else i + 1)
  }

  lemma ReadBlockIsPrintable(s: string, i: nat)
    requires i < |s| && s[i] == '{' && !Has(s, i + 1, '{') && CloseFrom(s, i + 1, 1) < |s|
    requires !DropsTail(s[i + 1..CloseFrom(s, i + 1, 1)])
    ensures Printable(ParseBlock(s[i + 1..CloseFrom(s, i + 1, 1)]))
  {
    var close := CloseFrom(s, i + 1, 1);
    var content := s[i + 1..close];
    ScannedIsBalanced(s, i + 1);
    ReconstructIsVerbatimIff(content);
    assert content != "" ==> content[0] == s[i + 1];
  }

  /** What every tokenization looks like: blocks whose parameter and payload are
      strictly shorter than the template, no empty or adjacent literals, and, when
      no block drops text, a canonical list. */
  lemma {:induction false} TokensShape(s: string, i: nat, pending: string)
    requires i <= |s|
    ensures var ts := Tokens(s, i, pending);
            WellShaped(ts, |s|) && (NothingDropped(s, i) ==> Canonical(ts))
    decreases |s| - i
  {
    hide *;
    if i == |s| {
      EndShape(s, pending);
    } else if s[i] == '{' && !Has(s, i + 1, '{') {
      BlockShape(s, i, pending);
      if CloseFrom(s, i + 1, 1) < |s| {
        DroppedNext(s, i);
        TokensShape(s, CloseFrom(s, i + 1, 1) + 1, "");
      }
    } else {
      TextIsNext(s, i, pending);
      TokensShape(s, AfterText(s, i), pending + [s[i]]);
    }
  }

  lemma EndShape(s: string, pending: string)
    ensures WellShaped(Tokens(s, |s|, pending), |s|) && Canonical(Tokens(s, |s|, pending))
  {
    OneLiteral(pending, |s|);
  }

  /** Past one character of literal text, or past a doubled brace. */
  function AfterText(s: string, i: nat): nat
    requires i < |s|
  {
    if s[i] in "{}" && Has(s, i + 1, s[i]) then i + 2 else i + 1
  }

  lemma TextIsNext(s: string, i: nat, pending: string)
    requires i < |s| && (s[i] == '{' ==> Has(s, i + 1, '{'))
    ensures i < AfterText(s, i) <= |s|
    ensures Tokens(s, i, pending) == Tokens(s, AfterText(s, i), pending + [s[i]])
    ensures NothingDropped(s, i) == NothingDropped(s, AfterText(s, i))
  {
  }

  lemma DroppedNext(s: string, i: nat)
    requires i < |s| && s[i] == '{' && !Has(s, i + 1, '{') && CloseFrom(s, i + 1, 1) < |s|
    ensures var close := CloseFrom(s, i + 1, 1);
            NothingDropped(s, i) <==> !DropsTail(s[i + 1..close]) && NothingDropped(s, close + 1)
  {
    hide CloseFrom, DropsTail;
  }

  lemma OneLiteral(text: string, n: nat)
    ensures WellShaped(Flush(text), n) && Canonical(Flush(text))
  {
  }

  lemma BlockShape(s: string, i: nat, pending: string)
    requires i < |s| && s[i] == '{' && !Has(s, i + 1, '{')
    ensures var close := CloseFrom(s, i + 1, 1);
            var ts := Tokens(s, i, pending);
            if close >= |s| then WellShaped(ts, |s|) && Canonical(ts)
            else
              WellShaped(Tokens(s, close + 1, ""), |s|) ==>
                && WellShaped(ts, |s|)
                && (!DropsTail(s[i + 1..close]) && Canonical(Tokens(s, close + 1, "")) ==> Canonical(ts))
  {
    hide *;
    var close := CloseFrom(s, i + 1, 1);
    if close == |s| {
      UnclosedIsNext(s, i, pending);
      OneLiteral(pending + s[i..], |s|);
    } else {
      var content := s[i + 1..close];
      var rest := Tokens(s, close + 1, "");
      BlockIsNext(s, i, pending);
      ParseBlockShrinks(content);
      BelowMore(ParseBlock(content), |content| + 2, |s|);
      if !DropsTail(content) {
        ReadBlockIsPrintable(s, i);
      }
      if WellShaped(rest, |s|) {
        PrependKeepsShape(pending, ParseBlock(content), rest, |s|);
      }
    }
  }

  lemma UnclosedIsNext(s: string, i: nat, pending: string)
    requires i < |s| && s[i] == '{' && !Has(s, i + 1, '{') && CloseFrom(s, i + 1, 1) == |s|
    ensures Tokens(s, i, pending) == Flush(pending + s[i..])
  {
    hide CloseFrom;
  }

  lemma BelowMore(t: Token, n: nat, m: nat)
    requires Below(t, n) && n <= m
    ensures Below(t, m)
  {
  }

  lemma PrependKeepsShape(pending: string, b: Token, rest: seq<Token>, n: nat)
    requires b.Block? && Below(b, n) && WellShaped(rest, n)
    ensures var ts := Flush(pending) + [b] + rest;
            WellShaped(ts, n) && (Printable(b) && Canonical(rest) ==> Canonical(ts))
  {
    var tail := [b] + rest;
    assert tail[1..] == rest;
    var ts := Flush(pending) + [b] + rest;
    if pending == "" {
      assert ts == tail;
    } else {
      assert ts[1..] == tail;
    }
  }

  /** Printing what was read is a normal form: a template whose blocks drop nothing
      is re-read as exactly the tokens it had. */
  lemma TokenizePrintTokenize(s: string)
    requires NothingDropped(s, 0)
    ensures Tokenized(Print(Tokenized(s))) == Tokenized(s)
  {
    TokensShape(s, 0, "");
    PrintThenTokenize(Tokenized(s));
  }
}
