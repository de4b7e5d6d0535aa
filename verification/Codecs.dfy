/** The text codecs of TagScript blocks: pipe lists and percent-encoding. */
module Codecs {
  import opened Base

  // ---- pipe lists ---------------------------------------------------------

  /** The parts of `s` from `i` on, `cur` being the part read so far. */
  function SplitFrom(s: string, i: nat, cur: string): (parts: seq<string>)
    requires i <= |s|
    ensures parts != []
    decreases |s| - i
  {
    if i == |s| then [cur]
    else if s[i] == '\\' then
      if i + 1 < |s| && s[i + 1] == '|' then SplitFrom(s, i + 2, cur + "|")
      else SplitFrom(s, i + 1, cur + "\\")
    else if s[i] == '|' then [cur] + SplitFrom(s, i + 1, "")
    else SplitFrom(s, i + 1, cur + [s[i]])
  }

  function SplitPipe(s: string): seq<string> {
    SplitFrom(s, 0, "")
  }

  method SplitPipeLoop(s: string) returns (parts: seq<string>)
    ensures parts == SplitPipe(s)
  {
    parts := [];
    var cur, i := "", 0;
    while i < |s|
      invariant i <= |s|
      invariant parts + SplitFrom(s, i, cur) == SplitPipe(s)
    {
      var c := s[i];
      i := i + 1;
      if c == '\\' {
        if i < |s| && s[i] == '|' {
          cur := cur + "|";
          i := i + 1;
          continue;
        }
        cur := cur + "\\";
      } else if c == '|' {
        parts := parts + [cur];
        cur := "";
      } else {
        cur := cur + [c];
      }
    }
    parts := parts + [cur];
  }

  function EscapePipes(part: string): string {
    if part == "" then ""
    else (if part[0] == '|' then "\\|" else [part[0]]) + EscapePipes(part[1..])
  }

  function JoinEscaped(parts: seq<string>): string
    requires parts != []
  {
    if |parts| == 1 then EscapePipes(parts[0])
    else EscapePipes(parts[0]) + ("|" + JoinEscaped(parts[1..]))
  }

  predicate EndsInBackslash(part: string) {
    part != "" && part[|part| - 1] == '\\'
  }

  /** What reading makes of joined parts: a final backslash swallows the separator. */
  function Fused(parts: seq<string>): (r: seq<string>)
    requires parts != []
    ensures r != []
  {
    if |parts| == 1 then parts
    else
      var rest := Fused(parts[1..]);
      if EndsInBackslash(parts[0]) then OnFirst(parts[0][..|parts[0]| - 1] + "|", rest)
      else [parts[0]] + rest
  }

  function OnFirst(head: string, parts: seq<string>): seq<string>
    requires parts != []
  {
    [head + parts[0]] + parts[1..]
  }

  predicate Swallows(part: string, rest: string) {
    EndsInBackslash(part) && rest != ""
  }

  lemma SuffixIndex(s: string, i: nat, n: nat)
    requires i + n <= |s|
    ensures s[i..][n..] == s[i + n..]
    ensures n > 0 ==> s[i..][0] == s[i]
    ensures n > 1 ==> s[i..][1] == s[i + 1]
  {
  }

  lemma {:induction false} EscapedPartIsRead(s: string, i: nat, part: string, rest: string, cur: string)
    requires i <= |s| && s[i..] == EscapePipes(part) + rest
    requires rest != "" ==> rest[0] == '|'
    ensures |rest| <= |s|
    ensures SplitFrom(s, i, cur) ==
              if Swallows(part, rest)
              then SplitFrom(s, |s| - |rest| + 1, cur + (part[..|part| - 1] + "|"))
              else SplitFrom(s, |s| - |rest|, cur + part)
    decreases part
  {
    hide SplitFrom;
    if part == "" {
      assert cur + part == cur;
    } else {
      var esc, tail := EscapePipes(part[1..]), part[1..];
      var n := if part[0] == '|' then 2 else 1;
      EscapedHead(part);
      assert s[i..] == (if part[0] == '|' then "\\|" else [part[0]]) + (esc + rest);
      hide EscapePipes;
      SuffixIndex(s, i, n);
      assert s[i + n..] == esc + rest;
      if i + n < |s| { SuffixIndex(s, i + n, 1); }
      SplitStep(s, i, cur);
      if tail == "" && Swallows(part, rest) {
        assert cur + (part[..0] + "|") == cur + "|";
      } else {
        EscapedPartIsRead(s, i + n, tail, rest, cur + [part[0]]);
        CurGrows(cur, part);
      }
    }
  }

  lemma SplitStep(s: string, i: nat, cur: string)
    requires i < |s|
    ensures SplitFrom(s, i, cur) ==
              if s[i] == '\\' && i + 1 < |s| && s[i + 1] == '|' then SplitFrom(s, i + 2, cur + "|")
              else if s[i] == '|' then [cur] + SplitFrom(s, i + 1, "")
              else SplitFrom(s, i + 1, cur + [s[i]])
  {
  }

  lemma EscapedHead(part: string)
    requires part != ""
    ensures EscapePipes(part) == (if part[0] == '|' then "\\|" else [part[0]]) + EscapePipes(part[1..])
    ensures part[1..] != "" ==> EscapePipes(part[1..]) != "" && EscapePipes(part[1..])[0] != '|'
    ensures part[1..] == "" ==> EscapePipes(part[1..]) == ""
  {
  }

  lemma CurGrows(cur: string, part: string)
    requires part != ""
    ensures cur + [part[0]] + part[1..] == cur + part
    ensures |part| > 1 ==> cur + [part[0]] + (part[1..][..|part| - 2] + "|") == cur + (part[..|part| - 1] + "|")
  {
    if |part| > 1 {
      assert part[..|part| - 1] == [part[0]] + part[1..][..|part| - 2];
    }
  }

  /** A part followed by a separator: either closed by it, or fused across it. */
  lemma PartThenSeparator(s: string, i: nat, part: string, more: string, cur: string)
    requires i <= |s| && s[i..] == EscapePipes(part) + ("|" + more)
    ensures |more| <= |s| && s[|s| - |more|..] == more
    ensures SplitFrom(s, i, cur) ==
              if EndsInBackslash(part)
              then SplitFrom(s, |s| - |more|, cur + (part[..|part| - 1] + "|"))
              else [cur + part] + SplitFrom(s, |s| - |more|, "")
  {
    var j := |s| - |more| - 1;
    assert s[j..] == s[i..][|EscapePipes(part)|..] == "|" + more;
    SuffixIndex(s, j, 1);
    assert s[j] == '|';
    EscapedPartIsRead(s, i, part, "|" + more, cur);
  }

  lemma {:induction false} JoinedIsFused(s: string, i: nat, parts: seq<string>, cur: string)
    requires parts != [] && i <= |s| && s[i..] == JoinEscaped(parts)
    ensures SplitFrom(s, i, cur) == OnFirst(cur, Fused(parts))
    decreases |parts|
  {
    hide SplitFrom, EscapePipes;
    if |parts| == 1 {
      assert s[i..] == EscapePipes(parts[0]) + "";
      EscapedPartIsRead(s, i, parts[0], "", cur);
      assert SplitFrom(s, |s|, cur + parts[0]) == [cur + parts[0]] by { EndOfInput(s, cur + parts[0]); }
    } else {
      var part, more := parts[0], JoinEscaped(parts[1..]);
      PartThenSeparator(s, i, part, more, cur);
      var head := part[..|part| - if part == "" then 0 else 1] + "|";
      JoinedIsFused(s, |s| - |more|, parts[1..], if EndsInBackslash(part) then cur + head else "");
      OnFirstTwice(cur, head, Fused(parts[1..]));
    }
  }

  lemma EndOfInput(s: string, cur: string)
    ensures SplitFrom(s, |s|, cur) == [cur]
  {
  }

  lemma OnFirstTwice(cur: string, head: string, parts: seq<string>)
    requires parts != []
    ensures OnFirst(cur + head, parts) == OnFirst(cur, OnFirst(head, parts))
    ensures OnFirst("", parts) == parts
  {
    assert cur + head + parts[0] == cur + (head + parts[0]);
    assert "" + parts[0] == parts[0];
  }

  /** Splitting undoes joining exactly when no part but the last ends in a backslash. */
  lemma SplitUndoesJoinIff(parts: seq<string>)
    requires parts != []
    ensures SplitPipe(JoinEscaped(parts)) == parts <==>
            forall i | 0 <= i < |parts| - 1 :: !EndsInBackslash(parts[i])
  {
    JoinedIsFused(JoinEscaped(parts), 0, parts, "");
    FusedIff(parts);
    OnFirstTwice("", "", Fused(parts));
  }

  /** The input: two parts, the first `a` with a backslash behind it, come back as one, `a|b`. */
  lemma SplitInput()
    ensures SplitPipe(JoinEscaped(["a\\", "b"])) == ["a|b"]
  {
    var parts := ["a\\", "b"];
    JoinedIsFused(JoinEscaped(parts), 0, parts, "");
    var p := "a\\";
    assert |p| == 2 && p[1] == '\\' && p[..1] == "a";
    assert parts[1..] == ["b"] && parts[0] == p && EndsInBackslash(p);
    assert Fused(["b"]) == ["b"] && ["b"][1..] == [] && "a" + "|" + "b" == "a|b";
    assert Fused(parts) == OnFirst("a" + "|", ["b"]) == ["a|b"];
    hide SplitFrom, JoinEscaped;
    OnFirstTwice("", "", Fused(parts));
  }

  lemma {:induction false} FusedIff(parts: seq<string>)
    requires parts != []
    ensures |Fused(parts)| <= |parts|
    ensures Fused(parts) == parts <==> forall i | 0 <= i < |parts| - 1 :: !EndsInBackslash(parts[i])
  {
    if |parts| > 1 {
      var rest := parts[1..];
      FusedIff(rest);
      assert parts == [parts[0]] + rest;
      assert forall i | 0 <= i < |rest| - 1 :: rest[i] == parts[i + 1];
      if !EndsInBackslash(parts[0]) {
        assert Fused(parts)[1..] == Fused(rest);
        if Fused(rest) == rest {
          forall i | 0 <= i < |parts| - 1 ensures !EndsInBackslash(parts[i]) {
            if i > 0 { assert rest[i - 1] == parts[i]; }
          }
        } else {
          var i :| 0 <= i < |rest| - 1 && EndsInBackslash(rest[i]);
          assert EndsInBackslash(parts[i + 1]);
        }
      }
    }
  }

  // ---- percent-encoding ---------------------------------------------------

  type Byte = b: int | 0 <= b < 256

  predicate Between(b: Byte, lo: char, hi: char) {
    lo as int <= b <= hi as int
  }

  /** The unreserved characters of RFC 3986, section 2.3. */
  predicate Unreserved(b: Byte) {
    Between(b, 'A', 'Z') || Between(b, 'a', 'z') || Between(b, '0', '9')
    || b == '-' as int || b == '_' as int || b == '.' as int || b == '~' as int
  }

  function HexDigit(n: int): Byte
    requires 0 <= n < 16
  {
    if n < 10 then '0' as int + n else 'A' as int + n - 10
  }

  function HexValue(b: Byte): (v: Option<int>)
    ensures v.Some? ==> 0 <= v.value < 16
  {
    if Between(b, '0', '9') then Some(b - '0' as int)
    else if Between(b, 'A', 'F') then Some(b - 'A' as int + 10)
    else if Between(b, 'a', 'f') then Some(b - 'a' as int + 10)
    else None
  }

  /** Reading two characters in base 16; the library also takes a leading plus. */
  function HexPair(a: Byte, b: Byte): Option<Byte> {
    match (HexValue(a), HexValue(b))
    case (Some(x), Some(y)) => Some(16 * x + y)
    case (None, Some(y)) => if a == '+' as int then Some(y) else None
    case _ => None
  }

  function EncodeByte(b: Byte, plus: bool): seq<Byte> {
    if Unreserved(b) || (!plus && b == '/' as int) then [b]
    else if plus && b == ' ' as int then ['+' as int]
    else ['%' as int, HexDigit(b / 16), HexDigit(b % 16)]
  }

  function UrlEncode(s: seq<Byte>, plus: bool): seq<Byte> {
    if s == [] then [] else EncodeByte(s[0], plus) + UrlEncode(s[1..], plus)
  }

  /** The byte decoded at `i`, and how many input bytes it took. */
  function DecodeOne(s: seq<Byte>, i: nat, plus: bool): (r: (Byte, nat))
    requires i < |s|
    ensures 1 <= r.1 <= |s| - i
  {
    if s[i] == '%' as int && i + 2 < |s| && HexPair(s[i + 1], s[i + 2]).Some? then
      (HexPair(s[i + 1], s[i + 2]).value, 3)
    else (if s[i] == '+' as int && plus then ' ' as int else s[i], 1)
  }

  /** The decoding of `s` from `i` on. */
  function DecodeFrom(s: seq<Byte>, i: nat, plus: bool): seq<Byte>
    requires i <= |s|
    decreases |s| - i
  {
    if i == |s| then []
    else [DecodeOne(s, i, plus).0] + DecodeFrom(s, i + DecodeOne(s, i, plus).1, plus)
  }

  function UrlDecode(s: seq<Byte>, plus: bool): seq<Byte> {
    DecodeFrom(s, 0, plus)
  }

  method UrlEncodeLoop(s: seq<Byte>, plus: bool) returns (out: seq<Byte>)
    ensures out == UrlEncode(s, plus)
  {
    out := [];
    for i := 0 to |s|
      invariant out + UrlEncode(s[i..], plus) == UrlEncode(s, plus)
    {
      var code: seq<Byte>;
      if Unreserved(s[i]) || (!plus && s[i] == '/' as int) {
        code := [s[i]];
      } else if plus && s[i] == ' ' as int {
        code := ['+' as int];
      } else {
        code := ['%' as int, HexDigit(s[i] / 16), HexDigit(s[i] % 16)];
      }
      assert s[i..][1..] == s[i + 1..];
      Assoc(out, code, UrlEncode(s[i + 1..], plus));
      out := out + code;
    }
  }

  method UrlDecodeLoop(s: seq<Byte>, plus: bool) returns (out: seq<Byte>)
    ensures out == UrlDecode(s, plus)
  {
    hide DecodeFrom;
    out := [];
    var i := 0;
    assert [] + DecodeFrom(s, 0, plus) == UrlDecode(s, plus);
    while i < |s|
      invariant i <= |s|
      invariant out + DecodeFrom(s, i, plus) == UrlDecode(s, plus)
    {
      var b, n := s[i], 1;
      if b == '%' as int && i + 2 < |s| {
        var h := HexPair(s[i + 1], s[i + 2]);
        if h.Some? {
          b, n := h.value, 3;
        }
      } else if b == '+' as int && plus {
        b := ' ' as int;
      }
      assert DecodeOne(s, i, plus) == (b, n);
      DecodedHead(s, i, plus);
      Assoc(out, [b], DecodeFrom(s, i + n, plus));
      out := out + [b];
      i := i + n;
    }
    NothingDecoded(s, i, plus);
  }

  lemma HexRoundTrip(b: Byte)
    ensures HexPair(HexDigit(b / 16), HexDigit(b % 16)) == Some(b)
  {
    assert b == 16 * (b / 16) + b % 16;
  }

  lemma EncodedByteIsRead(b: Byte, plus: bool, code: seq<Byte>, i: nat)
    requires var e := EncodeByte(b, plus); i + |e| <= |code| && code[i..i + |e|] == e
    ensures i < |code| && DecodeOne(code, i, plus) == (b, |EncodeByte(b, plus)|)
  {
    var e := EncodeByte(b, plus);
    assert code[i] == code[i..i + |e|][0];
    HexRoundTrip(b);
    if |e| == 3 {
      assert code[i + 1] == code[i..i + |e|][1] && code[i + 2] == code[i..i + |e|][2];
    }
  }

  lemma {:induction false} DecodeOfEncoded(s: seq<Byte>, plus: bool, code: seq<Byte>, i: nat)
    requires i <= |code| && code[i..] == UrlEncode(s, plus)
    ensures DecodeFrom(code, i, plus) == s
    decreases s
  {
    if s == [] {
      NothingDecoded(code, i, plus);
    } else {
      EncodedHead(s, plus);
      hide *;
      var e := EncodeByte(s[0], plus);
      SplitSuffix(code, i, e, UrlEncode(s[1..], plus));
      EncodedByteIsRead(s[0], plus, code, i);
      DecodedHead(code, i, plus);
      DecodeOfEncoded(s[1..], plus, code, i + |e|);
      HeadAndTail(s);
    }
  }

  lemma NothingDecoded(code: seq<Byte>, i: nat, plus: bool)
    requires i <= |code| && code[i..] == UrlEncode([], plus)
    ensures DecodeFrom(code, i, plus) == []
  {
    assert |code[i..]| == 0;
  }

  lemma EncodedHead(s: seq<Byte>, plus: bool)
    requires s != []
    ensures UrlEncode(s, plus) == EncodeByte(s[0], plus) + UrlEncode(s[1..], plus)
  {
    hide EncodeByte;
  }

  lemma DecodedHead(code: seq<Byte>, i: nat, plus: bool)
    requires i < |code|
    ensures DecodeFrom(code, i, plus)
            == [DecodeOne(code, i, plus).0] + DecodeFrom(code, i + DecodeOne(code, i, plus).1, plus)
  {
    hide DecodeOne;
  }

  /** Decoding undoes encoding, in either convention for spaces and slashes. */
  lemma DecodeUndoesEncode(s: seq<Byte>, plus: bool)
    ensures UrlDecode(UrlEncode(s, plus), plus) == s
  {
    DecodeOfEncoded(s, plus, UrlEncode(s, plus), 0);
  }

  /** Every encoded byte is unreserved, a percent sign, or the one extra sign the
      convention allows: `+` for spaces, or an unescaped `/`. */
  lemma {:induction false} EncodedAlphabet(s: seq<Byte>, plus: bool)
    ensures forall b | b in UrlEncode(s, plus) ::
              Unreserved(b) || b == '%' as int || b == (if plus then '+' else '/') as int
  {
    if s != [] {
      EncodedAlphabet(s[1..], plus);
    }
  }

  predicate UpperHex(b: Byte) {
    Between(b, '0', '9') || Between(b, 'A', 'F')
  }

  /** Every percent sign opens an escape of two upper-case hexadecimal digits. */
  predicate WellEscaped(code: seq<Byte>) {
    forall i | 0 <= i < |code| && code[i] == '%' as int ::
      i + 2 < |code| && UpperHex(code[i + 1]) && UpperHex(code[i + 2])
  }

  lemma EncodedByteEscapes(b: Byte, plus: bool)
    ensures WellEscaped(EncodeByte(b, plus))
  {
  }

  lemma EscapesJoin(a: seq<Byte>, b: seq<Byte>)
    requires WellEscaped(a) && WellEscaped(b)
    ensures WellEscaped(a + b)
  {
    var code := a + b;
    forall i | 0 <= i < |code| && code[i] == '%' as int
      ensures i + 2 < |code| && UpperHex(code[i + 1]) && UpperHex(code[i + 2])
    {
      if i < |a| {
        assert a[i] == code[i] && a[i + 1] == code[i + 1] && a[i + 2] == code[i + 2];
      } else {
        var j := i - |a|;
        assert b[j] == code[i] && b[j + 1] == code[i + 1] && b[j + 2] == code[i + 2];
      }
    }
  }

  /** Escapes are written as section 2.1 of RFC 3986 asks. */
  lemma {:induction false} PercentsAreEscapes(s: seq<Byte>, plus: bool)
    ensures WellEscaped(UrlEncode(s, plus))
  {
    if s != [] {
      hide EncodeByte, WellEscaped;
      EncodedByteEscapes(s[0], plus);
      PercentsAreEscapes(s[1..], plus);
      EscapesJoin(EncodeByte(s[0], plus), UrlEncode(s[1..], plus));
    } else {
      assert UrlEncode(s, plus) == [];
    }
  }

  lemma {:induction false} EncodeJoins(a: seq<Byte>, b: seq<Byte>, plus: bool)
    ensures UrlEncode(a + b, plus) == UrlEncode(a, plus) + UrlEncode(b, plus)
  {
    if a == [] {
      assert a + b == b;
    } else {
      assert (a + b)[1..] == a[1..] + b;
      EncodeJoins(a[1..], b, plus);
      Assoc(EncodeByte(a[0], plus), UrlEncode(a[1..], plus), UrlEncode(b, plus));
    }
  }

  /** Encoding goes byte by byte. A byte stays as it is exactly when it is unreserved, or a
      slash in the convention that keeps slashes; the other convention writes a space as a
      plus sign; every other byte takes three. */
  lemma EncodesByteByByte(a: seq<Byte>, b: Byte, c: seq<Byte>, plus: bool)
    ensures UrlEncode(a + [b] + c, plus) == UrlEncode(a, plus) + UrlEncode([b], plus) + UrlEncode(c, plus)
    ensures UrlEncode([b], plus) == [b] <==> Unreserved(b) || (!plus && b == '/' as int)
    ensures UrlEncode([' ' as int], plus) == if plus then ['+' as int] else ['%' as int, '2' as int, '0' as int]
    ensures |UrlEncode([b], plus)| == 3 <==> UrlEncode([b], plus) != [b] && !(plus && b == ' ' as int)
  {
    EncodeJoins(a + [b], c, plus);
    EncodeJoins(a, [b], plus);
    OneByte(b, plus);
    OneByte(' ' as int, plus);
    hide UrlEncode;
  }

  lemma OneByte(b: Byte, plus: bool)
    ensures UrlEncode([b], plus) == EncodeByte(b, plus)
  {
    assert [b][1..] == [];
    hide EncodeByte;
    assert EncodeByte(b, plus) + [] == EncodeByte(b, plus);
  }

  /** No escape that can be read starts in `s`, and no plus sign stands for a space. */
  predicate NothingToDecode(s: seq<Byte>, plus: bool) {
    && (forall i | 0 <= i < |s| - 2 && s[i] == '%' as int :: HexPair(s[i + 1], s[i + 2]).None?)
    && (plus ==> '+' as int !in s)
  }

  lemma {:induction false} DecodeStays(s: seq<Byte>, i: nat, plus: bool)
    requires i <= |s| && NothingToDecode(s, plus)
    ensures DecodeFrom(s, i, plus) == s[i..]
    decreases |s| - i
  {
    if i < |s| {
      hide HexPair;
      DecodeStays(s, i + 1, plus);
      assert s[i] in s && DecodeOne(s, i, plus) == (s[i], 1);
      assert [s[i]] + s[i + 1..] == s[i..];
    }
  }

  /** Text without readable escapes decodes to itself, malformed escapes included. */
  lemma MalformedEscapesStay(s: seq<Byte>, plus: bool)
    requires NothingToDecode(s, plus)
    ensures UrlDecode(s, plus) == s
  {
    DecodeStays(s, 0, plus);
  }

  /** Escapes are read in lower case as well. */
  lemma LowerCaseIsRead(b: Byte, plus: bool)
    ensures UrlDecode(['%' as int, LowerDigit(b / 16), LowerDigit(b % 16)], plus) == [b]
  {
    var s := ['%' as int, LowerDigit(b / 16), LowerDigit(b % 16)];
    assert b == 16 * (b / 16) + b % 16;
    assert HexPair(s[1], s[2]) == Some(b) && DecodeOne(s, 0, plus) == (b, 3);
    assert DecodeFrom(s, 3, plus) == [];
  }

  /** The reader of base 16 takes a plus sign in front of one digit. */
  lemma PlusDigitIsRead(n: int, plus: bool)
    requires 0 <= n < 16
    ensures UrlDecode(['%' as int, '+' as int, LowerDigit(n)], plus) == [n]
  {
    var s := ['%' as int, '+' as int, LowerDigit(n)];
    assert HexPair(s[1], s[2]) == Some(n) && DecodeOne(s, 0, plus) == (n, 3);
    assert DecodeFrom(s, 3, plus) == [];
  }

  function LowerDigit(n: int): Byte
    requires 0 <= n < 16
  {
    if n < 10 then '0' as int + n else 'a' as int + n - 10
  }
}
