/** Shared vocabulary: optional values, text measured in UTF-8 bytes, and joining. */
module Base {

  datatype Option<+T> = None | Some(value: T) {
    function GetOr(default: T): T {
      match this
      case Some(v) => v
      case None => default
    }
  }

  /** Bytes a character takes in UTF-8: Rust's `len()` counts these. */
  function Utf8Width(c: char): (w: nat)
    ensures 1 <= w <= 4
  {
    var n := c as int;
    if n < 0x80 then 1 else if n < 0x800 then 2 else if n < 0x1_0000 then 3 else 4
  }

  function ByteLen(s: string): nat {
    if s == "" then 0 else Utf8Width(s[0]) + ByteLen(s[1..])
  }

  /** A longer prefix takes more bytes: why a byte offset names one boundary. */
  lemma {:induction false} ByteLenPrefix(s: string, i: nat, j: nat)
    requires i <= j <= |s|
    ensures ByteLen(s[..i]) + (j - i) <= ByteLen(s[..j])
  {
    if j > 0 {
      assert s[..j][1..] == s[1..][..j - 1];
      if i == 0 {
        ByteLenPrefix(s[1..], 0, j - 1);
      } else {
        assert s[..i][1..] == s[1..][..i - 1];
        ByteLenPrefix(s[1..], i - 1, j - 1);
      }
    }
  }

  function TrimStart(s: string, white: char -> bool): string {
    if s != "" && white(s[0]) then TrimStart(s[1..], white) else s
  }

  function TrimEnd(s: string, white: char -> bool): string {
    if s != "" && white(s[|s| - 1]) then TrimEnd(s[..|s| - 1], white) else s
  }

  function Max(a: int, b: int): (m: int)
    ensures a <= m && b <= m && (m == a || m == b)
  {
    if a < b then b else a
  }

  /** Every copy of `x` taken out. */
  function Without<T(==,!new)>(s: seq<T>, x: T): (r: seq<T>)
    ensures forall y :: y in r <==> y in s && y != x
  {
    if s == [] then []
    else
      assert [s[0]] + s[1..] == s;
      (if s[0] != x then [s[0]] else []) + Without(s[1..], x)
  }

  ghost predicate Sorted(times: seq<int>) {
    times == [] || ((forall t | t in times[1..] :: times[0] <= t) && Sorted(times[1..]))
  }

  function Join(parts: seq<string>, sep: string): string {
    if parts == [] then ""
    else if |parts| == 1 then parts[0]
    else parts[0] + sep + Join(parts[1..], sep)
  }

  lemma SliceOfSuffix(s: string, i: nat, a: nat, b: nat)
    requires a <= b && i + b <= |s|
    ensures s[i..][a..b] == s[i + a..i + b]
  {
  }

  /** `x` stands in `s` at `i`. */
  ghost predicate At(s: string, i: nat, x: string) {
    i + |x| <= |s| && s[i..i + |x|] == x
  }

  lemma AtSplit(s: string, i: nat, a: string, b: string)
    requires At(s, i, a + b)
    ensures At(s, i, a) && At(s, i + |a|, b)
  {
    assert s[i..i + |a|] == (a + b)[..|a|] == a;
    assert s[i + |a|..i + |a| + |b|] == (a + b)[|a|..] == b;
  }

  lemma AtChar(s: string, i: nat, c: char)
    requires At(s, i, [c])
    ensures i < |s| && s[i] == c
  {
    assert s[i..i + 1][0] == s[i];
  }

  lemma SplitSuffix<T>(s: seq<T>, i: nat, head: seq<T>, rest: seq<T>)
    requires i <= |s| && s[i..] == head + rest
    ensures i + |head| <= |s| && s[i..i + |head|] == head && s[i + |head|..] == rest
  {
    assert s[i..i + |head|] == s[i..][..|head|];
    assert s[i + |head|..] == s[i..][|head|..];
  }

  lemma RemoveOne<K, V>(m: map<K, V>, k: K)
    requires k in m
    ensures |m - {k}| == |m| - 1 && k !in m - {k}
  {
    assert (m - {k}).Keys == m.Keys - {k};
  }

  lemma PutOne<K, V>(m: map<K, V>, k: K, v: V)
    ensures |m[k := v]| == if k in m then |m| else |m| + 1
  {
    assert m[k := v].Keys == m.Keys + {k};
  }

  lemma SuffixStep<T>(s: seq<T>, i: nat)
    requires i < |s|
    ensures s[i..] != [] && s[i..][0] == s[i] && s[i..][1..] == s[i + 1..]
  {
  }

  lemma Assoc<T>(a: seq<T>, b: seq<T>, c: seq<T>)
    ensures a + b + c == a + (b + c)
  {
  }

  lemma HeadAndTail<T>(s: seq<T>)
    requires s != []
    ensures [s[0]] + s[1..] == s
  {
  }

  lemma {:induction false} ProductsApart(t: nat, a: nat, b: nat)
    ensures a < b ==> t * a + t <= t * b
  {
    if a + 1 < b {
      ProductsApart(t, a, b - 1);
    }
  }

  lemma QuotientAndRemainder(k: nat, t: nat, q: nat, r: nat)
    requires t > 0 && k == t * q + r && r < t
    ensures q == k / t && r == k % t
  {
    ProductsApart(t, q, k / t);
    ProductsApart(t, k / t, q);
    assert k == t * (k / t) + k % t;
  }
}
