/** The weighted choice of `{random:...}`, against the list it stands for. */
module Random {
  import opened Base
  import opened Context

  datatype Choice = Choice(weight: nat, item: string)

  /** A 32-bit weight, at least 1; anything unreadable weighs 1. */
  function ReadWeight(l: Library, text: string): (w: nat)
    ensures 1 <= w < 0x1_0000_0000
  {
    var t := Trim(l, text);
    var digits := if t != "" && t[0] == '+' then t[1..] else t;
    if digits == "" || !OnlyDigits(digits) || Decimal(digits) >= 0x1_0000_0000 then 1
    else if Decimal(digits) == 0 then 1 else Decimal(digits)
  }

  function ReadChoice(l: Library, raw: string): (c: Choice)
    ensures c.weight >= 1
  {
    var bar := Find(raw, "|", 0);
    if bar > |raw| then Choice(1, raw) else Choice(ReadWeight(l, raw[..bar]), raw[bar + 1..])
  }

  function ReadChoices(l: Library, raws: seq<string>): (cs: seq<Choice>)
    ensures |cs| == |raws| && forall c | c in cs :: c.weight >= 1
  {
    if raws == [] then [] else [ReadChoice(l, raws[0])] + ReadChoices(l, raws[1..])
  }

  function Choices(l: Library, payload: string): (cs: seq<Choice>)
    ensures cs != [] && forall c | c in cs :: c.weight >= 1
  {
    ReadChoices(l, SplitOn(payload, if '~' in payload then "~" else ","))
  }

  function Total(cs: seq<Choice>): nat {
    if cs == [] then 0 else cs[0].weight + Total(cs[1..])
  }

  function Times(n: nat, item: string): (r: seq<string>)
    ensures |r| == n && forall x | x in r :: x == item
  {
    if n == 0 then [] else [item] + Times(n - 1, item)
  }

  /** Every item written down as often as it weighs. */
  function Expanded(cs: seq<Choice>): (r: seq<string>)
    ensures |r| == Total(cs)
  {
    if cs == [] then [] else Times(cs[0].weight, cs[0].item) + Expanded(cs[1..])
  }

  function WeightOf(cs: seq<Choice>, item: string): nat {
    if cs == [] then 0 else (if cs[0].item == item then cs[0].weight else 0) + WeightOf(cs[1..], item)
  }

  lemma {:induction false} CountTimes(n: nat, item: string, x: string)
    ensures multiset(Times(n, item))[x] == if x == item then n else 0
  {
    if n > 0 {
      CountTimes(n - 1, item, x);
    }
  }

  /** Out of all rolls, as many pick an item as it weighs. */
  lemma {:induction false} RollsPerItem(cs: seq<Choice>, x: string)
    ensures multiset(Expanded(cs))[x] == WeightOf(cs, x)
  {
    if cs != [] {
      CountTimes(cs[0].weight, cs[0].item, x);
      RollsPerItem(cs[1..], x);
    }
  }

  // ---- 32-bit sums --------------------------------------------------------

  function Wrapped(n: nat): (r: nat)
    ensures n < 0x1_0000_0000 ==> r == n
    ensures r < 0x1_0000_0000
  {
    n % 0x1_0000_0000
  }

  /** Where the walk over the items from the k-th on stops, `acc` being the running sum. */
  function Stop(cs: seq<Choice>, k: nat, acc: nat, roll: nat): (i: nat)
    requires cs != [] && k <= |cs|
    ensures i < |cs| && (k < |cs| ==> k <= i)
    decreases |cs| - k
  {
    if k == |cs| then k - 1
    else
      var next := Wrapped(acc + cs[k].weight);
      if roll < next then k else Stop(cs, k + 1, next, roll)
  }

  /** What every roll below the summed weights gives. */
  function Picks(cs: seq<Choice>): seq<string>
    requires cs != []
  {
    seq(Wrapped(Total(cs)), (roll: nat) => cs[Stop(cs, 0, 0, roll)].item)
  }

  /** An empty seed is none. */
  function Seed(parameter: Option<string>): Option<string> {
    if parameter == Some("") then None else parameter
  }

  /** The number below the sum that a random number makes. Below a sum of 0 a seed gives 0,
      and without one the source stops: None. */
  function Roll(total: nat, seed: Option<string>, random: nat): Option<nat> {
    if total > 0 then Some(random % total) else if seed.Some? then Some(0) else None
  }

  function Picked(l: Library, payload: string, seed: Option<string>, random: nat): Option<string> {
    var cs := Choices(l, payload);
    var roll := Roll(Wrapped(Total(cs)), seed, random);
    if roll.None? then None else Some(cs[Stop(cs, 0, 0, roll.value)].item)
  }

  lemma {:induction false} WalkIsExpanded(cs: seq<Choice>, k: nat, acc: nat, roll: nat, all: seq<string>)
    requires cs != [] && k <= |cs| && acc <= roll < |all| < 0x1_0000_0000
    requires all[acc..] == Expanded(cs[k..])
    ensures cs[Stop(cs, k, acc, roll)].item == all[roll]
    decreases |cs| - k
  {
    hide Expanded;
    if k == |cs| {
      NothingLeft(cs, k, all, acc);
    } else {
      PickHere(cs, k, all, acc, roll);
      if roll >= acc + cs[k].weight {
        WalkIsExpanded(cs, k + 1, acc + cs[k].weight, roll, all);
      }
    }
  }

  lemma PicksAreExpanded(cs: seq<Choice>)
    requires cs != [] && Total(cs) < 0x1_0000_0000
    ensures Picks(cs) == Expanded(cs)
  {
    var all := Expanded(cs);
    assert cs[0..] == cs && all[0..] == all;
    forall roll | 0 <= roll < |all| ensures Picks(cs)[roll] == all[roll] {
      WalkIsExpanded(cs, 0, 0, roll, all);
    }
  }

  ghost predicate Weighed(cs: seq<Choice>) {
    && cs != [] && (forall c | c in cs :: 1 <= c.weight < 0x1_0000_0000)
    && forall i, j | 0 <= i < j < |cs| :: cs[i].item != cs[j].item
  }

  /** Some roll picks, and every item is picked in proportion to its weight. */
  ghost predicate Fair(cs: seq<Choice>)
    requires cs != []
  {
    && Picks(cs) != []
    && forall i | 0 <= i < |cs| :: multiset(Picks(cs))[cs[i].item] * Total(cs) == cs[i].weight * |Picks(cs)|
  }

  lemma {:induction false} WeightOfItem(cs: seq<Choice>, i: nat)
    requires i < |cs| && forall j | 0 <= j < |cs| && j != i :: cs[j].item != cs[i].item
    ensures WeightOf(cs, cs[i].item) == cs[i].weight
  {
    assert forall j | 0 <= j < |cs| - 1 :: cs[1..][j] == cs[j + 1];
    if i == 0 {
      WeightOfNone(cs[1..], cs[0].item);
    } else {
      WeightOfItem(cs[1..], i - 1);
    }
  }

  lemma {:induction false} WeightOfNone(cs: seq<Choice>, item: string)
    requires forall j | 0 <= j < |cs| :: cs[j].item != item
    ensures WeightOf(cs, item) == 0
  {
    if cs != [] {
      WeightOfNone(cs[1..], item);
    }
  }

  /** The item at which the running sum first leaves 32 bits. */
  function Overflow(cs: seq<Choice>, k: nat, acc: nat): (j: nat)
    requires k <= |cs| && acc < 0x1_0000_0000 && acc + Total(cs[k..]) >= 0x1_0000_0000
    ensures k <= j < |cs|
    decreases |cs| - k
  {
    TotalFrom(cs, k);
    if acc + cs[k].weight >= 0x1_0000_0000 then k else Overflow(cs, k + 1, acc + cs[k].weight)
  }

  lemma TotalFrom(cs: seq<Choice>, k: nat)
    requires k <= |cs|
    ensures Total(cs[k..]) == if k == |cs| then 0 else cs[k].weight + Total(cs[k + 1..])
  {
    if k < |cs| {
      assert cs[k..][0] == cs[k] && cs[k..][1..] == cs[k + 1..];
    }
  }

  /** No roll below the sum stops there: the sum falls below every roll that gets so far. */
  lemma {:induction false} OverflowNotPicked(cs: seq<Choice>, k: nat, acc: nat, roll: nat)
    requires k <= |cs| && acc < 0x1_0000_0000 && acc + Total(cs[k..]) >= 0x1_0000_0000
    requires forall c | c in cs :: c.weight < 0x1_0000_0000
    requires acc <= roll < Wrapped(acc + Total(cs[k..]))
    ensures Stop(cs, k, acc, roll) != Overflow(cs, k, acc)
    decreases |cs| - k
  {
    hide Total;
    TotalFrom(cs, k);
    TotalFrom(cs, |cs|);
    assert cs[k] in cs;
    var sum := acc + cs[k].weight;
    if sum < 0x1_0000_0000 {
      if roll >= sum {
        OverflowNotPicked(cs, k + 1, sum, roll);
      }
    } else {
      WrapsOnce(sum);
    }
  }

  lemma WrapsOnce(n: nat)
    requires 0x1_0000_0000 <= n < 0x2_0000_0000
    ensures Wrapped(n) == n - 0x1_0000_0000
  {
  }

  lemma NeverPicked(cs: seq<Choice>) returns (j: nat)
    requires Weighed(cs) && Total(cs) >= 0x1_0000_0000
    ensures j < |cs| && multiset(Picks(cs))[cs[j].item] == 0
  {
    assert cs[0..] == cs;
    j := Overflow(cs, 0, 0);
    hide Total, Wrapped, Overflow;
    forall x | x in Picks(cs) ensures x != cs[j].item {
      var roll :| 0 <= roll < |Picks(cs)| && Picks(cs)[roll] == x;
      OverflowNotPicked(cs, 0, 0, roll);
      assert x == cs[Stop(cs, 0, 0, roll)].item;
    }
    assert cs[j].item !in Picks(cs);
  }

  lemma FairWithin(cs: seq<Choice>)
    requires Weighed(cs) && Total(cs) < 0x1_0000_0000
    ensures Fair(cs)
  {
    PicksAreExpanded(cs);
    assert cs[0] in cs && Total(cs) > 0;
    forall i | 0 <= i < |cs|
      ensures multiset(Picks(cs))[cs[i].item] * Total(cs) == cs[i].weight * |Picks(cs)|
    {
      RollsPerItem(cs, cs[i].item);
      WeightOfItem(cs, i);
    }
    hide Total, Expanded, WeightOf, Picks;
  }

  /** The choice between different items is fair if and only if their weights add up within
      32 bits; past that some item is never picked. */
  lemma FairIff(cs: seq<Choice>)
    requires Weighed(cs)
    ensures Fair(cs) <==> Total(cs) < 0x1_0000_0000
  {
    if Total(cs) < 0x1_0000_0000 {
      FairWithin(cs);
    } else {
      var j := NeverPicked(cs);
      hide Picks, Total;
      assert cs[j] in cs;
      if Picks(cs) != [] {
        Positive(cs[j].weight, |Picks(cs)|);
        assert multiset(Picks(cs))[cs[j].item] * Total(cs) == 0;
      }
    }
  }

  lemma Positive(a: nat, b: nat)
    requires a > 0 && b > 0
    ensures a * b > 0
  {
    ProductsApart(a, 0, b);
  }

  // ---- the input ----------------------------------------------------------

  lemma DecimalStep(s: string, k: nat)
    requires k < |s| && IsDigit(s[k])
    ensures Decimal(s[..k + 1]) == 10 * Decimal(s[..k]) + (s[k] as int - '0' as int)
  {
    assert s[..k + 1][..k] == s[..k];
  }

  lemma {:induction false} FromDigits(s: string, k: nat, n: nat, a: char, b: char)
    requires k + 2 <= |s| && s[k] == a && s[k + 1] == b && IsDigit(a) && IsDigit(b) && Decimal(s[..k]) == n
    ensures Decimal(s[..k + 2]) == 100 * n + 10 * (a as int - '0' as int) + (b as int - '0' as int)
  {
    hide Decimal;
    DecimalStep(s, k);
    DecimalStep(s, k + 1);
  }

  lemma LargestIsRead()
    ensures Decimal("4294967295") == 0xffff_ffff && OnlyDigits("4294967295")
  {
    hide *;
    LargestDigits("4294967295");
    LargestDecimal("4294967295");
  }

  lemma LargestDigits(s: string)
    requires s == "4294967295"
    ensures OnlyDigits(s)
  {
    DigitsTogether(s);
    hide OnlyDigits;
  }

  lemma LargestDecimal(s: string)
    requires |s| == 10 && s == "4294967295"
    ensures Decimal(s) == 0xffff_ffff
  {
    hide Decimal;
    assert s[..0] == "" && s[..10] == s;
    NoDecimal();
    assert s[0] == '4' && s[1] == '2' && s[2] == '9' && s[3] == '4' && s[4] == '9';
    assert s[5] == '6' && s[6] == '7' && s[7] == '2' && s[8] == '9' && s[9] == '5';
    FromDigits(s, 0, 0, '4', '2');
    FromDigits(s, 2, 42, '9', '4');
    FromDigits(s, 4, 4294, '9', '6');
    FromDigits(s, 6, 429496, '7', '2');
    FromDigits(s, 8, 42949672, '9', '5');
  }

  lemma NoDecimal()
    ensures Decimal("") == 0
  {
  }

  lemma {:induction false} DigitsTogether(s: string)
    requires forall c | c in s :: IsDigit(c)
    ensures OnlyDigits(s)
  {
    if s != "" {
      DigitsTogether(s[1..]);
    }
  }

  lemma {:induction false} NothingToTrim(l: Library, s: string)
    requires s != "" && !l.isSpace(s[0]) && !l.isSpace(s[|s| - 1])
    ensures Trim(l, s) == s
  {
  }

  lemma ReadsChoice(l: Library, digits: string, item: string)
    requires digits != "" && OnlyDigits(digits) && 1 <= Decimal(digits) < 0x1_0000_0000
    requires !l.isSpace(digits[0]) && !l.isSpace(digits[|digits| - 1])
    ensures ReadChoice(l, digits + "|" + item) == Choice(Decimal(digits), item)
  {
    var raw := digits + "|" + item;
    hide Decimal;
    DigitsOnly(digits);
    FindFirst(digits, "|", item, 0);
    NothingToTrim(l, digits);
    hide Find, Trim, OnlyDigits;
    assert raw[..|digits|] == digits && raw[|digits| + 1..] == item;
  }

  lemma {:induction false} DigitsOnly(s: string)
    requires OnlyDigits(s)
    ensures forall c | c in s :: IsDigit(c)
  {
    if s != "" {
      DigitsOnly(s[1..]);
      HeadAndTail(s);
    }
  }

  /** The input: `4294967295|a~2|b` has one roll, and it picks `a`. */
  lemma UnfairInput(l: Library)
    requires forall c | c in "4592" :: !l.isSpace(c)
    ensures Choices(l, "4294967295|a~2|b") == [Choice(0xffff_ffff, "a"), Choice(2, "b")]
    ensures Picks(Choices(l, "4294967295|a~2|b")) == ["a"]
  {
    LargestIsRead();
    TwoIsRead();
    hide *;
    ReadsChoice(l, "4294967295", "a");
    ReadsChoice(l, "2", "b");
    assert "4294967295" + "|" + "a" == "4294967295|a" && "2" + "|" + "b" == "2|b";
    ChoicesOfTwo(l, "4294967295|a", "2|b");
    assert "4294967295|a" + "~" + "2|b" == "4294967295|a~2|b";
    OneRoll();
  }

  lemma ChoicesOfTwo(l: Library, a: string, b: string)
    requires '~' !in a && '~' !in b
    ensures Choices(l, a + "~" + b) == [ReadChoice(l, a), ReadChoice(l, b)]
  {
    SplitOnce(a, "~", b);
    assert '~' in a + "~" + b by { assert (a + "~" + b)[|a|] == '~'; }
    hide SplitOn, ReadChoice;
    assert [a, b][1..] == [b] && [b][1..] == [];
    assert ReadChoices(l, [b]) == [ReadChoice(l, b)];
  }

  lemma OneRoll()
    ensures Picks([Choice(0xffff_ffff, "a"), Choice(2, "b")]) == ["a"]
  {
    var cs := [Choice(0xffff_ffff, "a"), Choice(2, "b")];
    assert cs[1..] == [Choice(2, "b")] && cs[1..][1..] == [];
    assert Total(cs) == 0x1_0000_0001;
    assert Wrapped(Total(cs)) == 1;
    assert Stop(cs, 0, 0, 0) == 0;
  }

  /** The two lists of `random_block`, filled side by side. */
  method ReadLists(l: Library, raws: seq<string>) returns (items: seq<string>, weights: seq<nat>)
    ensures |items| == |weights| == |raws|
    ensures forall j :: 0 <= j < |raws| ==> ReadChoice(l, raws[j]) == Choice(weights[j], items[j])
  {
    hide ReadWeight;
    items, weights := [], [];
    for i := 0 to |raws|
      invariant |items| == |weights| == i
      invariant forall j :: 0 <= j < i ==> ReadChoice(l, raws[j]) == Choice(weights[j], items[j])
    {
      var bar := Find(raws[i], "|", 0);
      if bar <= |raws[i]| {
        weights := weights + [ReadWeight(l, raws[i][..bar])];
        items := items + [raws[i][bar + 1..]];
      } else {
        weights := weights + [1];
        items := items + [raws[i]];
      }
    }
  }

  lemma {:induction false} ReadChoicesAt(l: Library, raws: seq<string>, j: nat)
    requires j < |raws|
    ensures ReadChoices(l, raws)[j] == ReadChoice(l, raws[j])
  {
    if j > 0 {
      ReadChoicesAt(l, raws[1..], j - 1);
    }
  }

  lemma {:induction false} TotalPush(cs: seq<Choice>, k: nat)
    requires k < |cs|
    ensures Total(cs[..k + 1]) == Total(cs[..k]) + cs[k].weight
    decreases k
  {
    if k > 0 {
      assert cs[..k + 1][1..] == cs[1..][..k] && cs[..k][1..] == cs[1..][..k - 1];
      TotalPush(cs[1..], k - 1);
    }
  }

  /** `random_block`: read the weights, add them up in 32 bits, roll below the sum, and walk
      the items until the running sum passes the roll. */
  method RandomBlock(l: Library, seed: Option<string>, payload: string, random: nat) returns (text: Option<string>)
    ensures text == Picked(l, payload, seed, random)
  {
    hide ReadChoice, ReadChoices, SplitOn, Total, Wrapped;
    var raws := SplitOn(payload, if '~' in payload then "~" else ",");
    ghost var cs := ReadChoices(l, raws);
    var items, weights := ReadLists(l, raws);
    assert cs == Choices(l, payload);
    var total: nat := 0;
    assert cs[..0] == [] && cs[..|cs|] == cs && Total([]) == 0 by { NoTotal(); }
    for i := 0 to |weights|
      invariant total == Wrapped(Total(cs[..i]))
    {
      ReadChoicesAt(l, raws, i);
      TotalPush(cs, i);
      WrappedSum(Total(cs[..i]), weights[i]);
      total := Wrapped(total + weights[i]);
    }
    var roll := Roll(total, seed, random);
    if roll.None? {
      return None;
    }
    var acc: nat := 0;
    for i := 0 to |weights|
      invariant Stop(cs, 0, 0, roll.value) == Stop(cs, i, acc, roll.value)
    {
      ReadChoicesAt(l, raws, i);
      acc := Wrapped(acc + weights[i]);
      if roll.value < acc {
        return Some(items[i]);
      }
    }
    ReadChoicesAt(l, raws, |raws| - 1);
    return Some(items[|items| - 1]);
  }

  /** Each random number gives one entry of what the rolls pick, and entries that follow each
      other are given by numbers that do. Below a sum of 0 a seed gives the first item. */
  lemma PickedIs(l: Library, payload: string, seed: Option<string>, random: nat)
    ensures var picks := Picks(Choices(l, payload));
            Picked(l, payload, seed, random) ==
              if picks != [] then Some(picks[random % |picks|])
              else if seed.Some? then Some(Choices(l, payload)[0].item) else None
  {
    var cs := Choices(l, payload);
    if Wrapped(Total(cs)) == 0 {
      assert cs[0] in cs;
      ReadsWithin(l, payload);
      assert Stop(cs, 0, 0, 0) == 0;
    }
    hide Total, Choices, Stop;
  }

  lemma ReadsWithin(l: Library, payload: string)
    ensures forall c | c in Choices(l, payload) :: 1 <= c.weight < 0x1_0000_0000
  {
    AllWithin(l, SplitOn(payload, if '~' in payload then "~" else ","));
  }

  lemma {:induction false} AllWithin(l: Library, raws: seq<string>)
    ensures forall c | c in ReadChoices(l, raws) :: 1 <= c.weight < 0x1_0000_0000
  {
    if raws != [] {
      AllWithin(l, raws[1..]);
    }
  }

  /** How an item is written: alone, or behind its weight. A weight of 0, one past 32 bits, and
      one that is no number count as 1. */
  lemma ItemIsRead(l: Library, weight: string, item: string)
    ensures '|' !in item ==> ReadChoice(l, item) == Choice(1, item)
    ensures '|' !in weight && Trim(l, weight) != "" && OnlyDigits(Trim(l, weight)) ==>
              var n := Decimal(Trim(l, weight));
              ReadChoice(l, weight + "|" + item) == Choice(if 1 <= n < 0x1_0000_0000 then n else 1, item)
    ensures '|' !in weight && Trim(l, weight) != "" && !OnlyDigits(Trim(l, weight)) && Trim(l, weight)[0] != '+' ==>
              ReadChoice(l, weight + "|" + item) == Choice(1, item)
  {
    hide Decimal, OnlyDigits, Trim, Find;
    if '|' !in item {
      FindNone(item, "|", 0);
    }
    if '|' !in weight {
      var raw := weight + "|" + item;
      FindFirst(weight, "|", item, 0);
      assert raw[..|weight|] == weight && raw[|weight| + 1..] == item;
      if Trim(l, weight) != "" && OnlyDigits(Trim(l, weight)) {
        FirstIsDigit(Trim(l, weight));
      }
    }
  }

  lemma FindInFront(a: string, sep: char, b: string)
    requires sep !in a
    ensures Find(a + [sep] + b, [sep], 0) == |a|
  {
    FindFirst(a, [sep], b, 0);
  }

  lemma {:induction false} SplitUndoesJoin(parts: seq<string>, sep: char)
    requires parts != [] && forall p | p in parts :: sep !in p
    ensures SplitOn(Join(parts, [sep]), [sep]) == parts
  {
    assert parts[0] in parts;
    if |parts| == 1 {
      FindNone(parts[0], [sep], 0);
    } else {
      var rest := Join(parts[1..], [sep]);
      var s := parts[0] + [sep] + rest;
      assert forall p | p in parts[1..] :: p in parts;
      SplitUndoesJoin(parts[1..], sep);
      FindInFront(parts[0], sep, rest);
      assert Join(parts, [sep]) == s;
      assert s[..|parts[0]|] == parts[0] && s[|parts[0]| + 1..] == rest;
      HeadAndTail(parts);
    }
  }

  /** Items joined by tildes, or by commas when there is no tilde, are read one by one. */
  lemma ItemsAreRead(l: Library, raws: seq<string>)
    requires |raws| > 1 && forall raw | raw in raws :: '~' !in raw
    ensures Choices(l, Join(raws, "~")) == ReadChoices(l, raws)
    ensures (forall raw | raw in raws :: ',' !in raw) ==> Choices(l, Join(raws, ",")) == ReadChoices(l, raws)
    ensures forall j | 0 <= j < |raws| :: ReadChoices(l, raws)[j] == ReadChoice(l, raws[j])
  {
    forall j | 0 <= j < |raws| ensures ReadChoices(l, raws)[j] == ReadChoice(l, raws[j]) {
      ReadChoicesAt(l, raws, j);
    }
    hide ReadChoice, ReadChoices, SplitOn;
    assert Join(raws, "~")[|raws[0]|] == '~';
    SplitUndoesJoin(raws, '~');
    if forall raw | raw in raws :: ',' !in raw {
      NotJoinedBy(raws, ',', '~');
      SplitUndoesJoin(raws, ',');
    }
  }

  lemma {:induction false} NotJoinedBy(parts: seq<string>, sep: char, c: char)
    requires sep != c && forall p | p in parts :: c !in p
    ensures c !in Join(parts, [sep])
  {
    if |parts| > 1 {
      assert forall p | p in parts[1..] :: p in parts;
      NotJoinedBy(parts[1..], sep, c);
      assert parts[0] in parts;
    } else if |parts| == 1 {
      assert parts[0] in parts;
    }
  }

  lemma NoTotal()
    ensures Total([]) == 0 && Wrapped(0) == 0
  {
  }

  lemma WrappedSum(a: nat, b: nat)
    ensures Wrapped(Wrapped(a) + b) == Wrapped(a + b)
  {
  }

  lemma NothingLeft(cs: seq<Choice>, i: nat, all: seq<string>, acc: nat)
    requires i == |cs| && acc <= |all| && all[acc..] == Expanded(cs[i..])
    ensures acc == |all|
  {
    assert |all[acc..]| == 0;
  }

  /** The roll lands on the first of the remaining choices, or further on. */
  lemma PickHere(cs: seq<Choice>, i: nat, all: seq<string>, acc: nat, roll: nat)
    requires i < |cs| && acc <= roll < |all| && all[acc..] == Expanded(cs[i..])
    ensures roll < acc + cs[i].weight ==> all[roll] == cs[i].item
    ensures acc + cs[i].weight <= |all| && all[acc + cs[i].weight..] == Expanded(cs[i + 1..])
  {
    var here := Times(cs[i].weight, cs[i].item);
    assert cs[i..][0] == cs[i] && cs[i..][1..] == cs[i + 1..];
    SplitSuffix(all, acc, here, Expanded(cs[i + 1..]));
    if roll < acc + cs[i].weight {
      assert all[roll] == here[roll - acc] && here[roll - acc] in here by {
        assert all[acc..acc + cs[i].weight][roll - acc] == all[roll];
      }
    }
  }
}
