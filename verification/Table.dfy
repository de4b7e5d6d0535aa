/** What each writer of the prefixes stores and answers, read off the table and the request. */
module Table {
  import opened Base
  import opened Prefixes

  // ---- which prefixes are accepted ----------------------------------------

  lemma AtNext(s: string, i: nat, x: string)
    requires s != ""
    ensures At(s, i + 1, x) <==> At(s[1..], i, x)
  {
    if i + 1 + |x| <= |s| {
      assert s[i + 1..i + 1 + |x|] == s[1..][i..i + |x|];
    }
  }

  lemma AtStart(s: string)
    ensures At(s, 0, ":|:") <==> |s| >= 3 && s[..3] == ":|:"
  {
    if |s| >= 3 {
      assert s[0..3] == s[..3];
    }
  }

  lemma {:induction false} HasSeparatorIff(s: string)
    ensures HasSeparator(s) <==> exists i: nat :: At(s, i, ":|:")
  {
    AtStart(s);
    if |s| >= 3 {
      hide At;
      HasSeparatorIff(s[1..]);
      forall i: nat {
        AtNext(s, i, ":|:");
      }
      if i: nat :| At(s, i, ":|:") {
        assert i > 0 ==> At(s[1..], i - 1, ":|:");
      }
    }
  }

  /** Why a raw prefix is refused: the separator first, then an empty core, then its length. */
  lemma RefusedText(raw: string, before: string, text: string, after: string, white: char -> bool)
    requires IsCore(raw, before, text, after, white)
    ensures Sanitize(raw, white) ==
              if exists i: nat :: At(raw, i, ":|:") then Bad(Separator)
              else if text == "" then Bad(Blank) else if |text| > 25 then Bad(TooLong) else Ok(text)
  {
    HasSeparatorIff(raw);
    TrimIsCore(raw, before, text, after, white);
    hide IsCore, HasSeparator, TrimStart, TrimEnd, At;
  }

  lemma {:induction false} TrimStartIs(before: string, text: string, white: char -> bool)
    requires AllWhite(before, white) && (text != "" ==> !white(text[0]))
    ensures TrimStart(before + text, white) == text
  {
    if before == "" {
      assert before + text == text;
    } else {
      assert before[0] in before;
      assert (before + text)[1..] == before[1..] + text;
      TrimStartIs(before[1..], text, white);
    }
  }

  lemma {:induction false} TrimEndIs(text: string, after: string, white: char -> bool)
    requires AllWhite(after, white) && (text != "" ==> !white(text[|text| - 1]))
    ensures TrimEnd(text + after, white) == text
  {
    if after == "" {
      assert text + after == text;
    } else {
      var last := |after| - 1;
      assert after[last] in after && (text + after)[|text + after| - 1] == after[last];
      assert (text + after)[..|text + after| - 1] == text + after[..last];
      TrimEndIs(text, after[..last], white);
    }
  }

  lemma {:induction false} TrimStartWhite(s: string, white: char -> bool)
    requires AllWhite(s, white)
    ensures TrimStart(s, white) == ""
  {
    if s != "" {
      assert s[0] in s;
      TrimStartWhite(s[1..], white);
    }
  }

  lemma TrimIsCore(raw: string, before: string, text: string, after: string, white: char -> bool)
    requires IsCore(raw, before, text, after, white)
    ensures TrimEnd(TrimStart(raw, white), white) == text
  {
    if text == "" {
      assert raw == before + after;
      TrimStartWhite(raw, white);
    } else {
      Assoc(before, text, after);
      assert (text + after)[0] == text[0];
      TrimStartIs(before, text + after, white);
      TrimEndIs(text, after, white);
    }
  }

  // ---- the whole set at once ----------------------------------------------

  function Accepted(raws: seq<string>, white: char -> bool): bool {
    forall raw | raw in raws :: Sanitize(raw, white).Ok?
  }

  /** The texts a list of raw prefixes comes down to. */
  ghost function Texts(raws: seq<string>, white: char -> bool): set<string> {
    set raw | raw in raws && Sanitize(raw, white).Ok? :: Sanitize(raw, white).text
  }

  lemma TextsHead(raws: seq<string>, white: char -> bool)
    requires raws != [] && Sanitize(raws[0], white).Ok?
    ensures Texts(raws, white) == {Sanitize(raws[0], white).text} + Texts(raws[1..], white)
    ensures Accepted(raws, white) <==> Accepted(raws[1..], white)
  {
    hide Sanitize;
    assert forall raw :: raw in raws <==> raw == raws[0] || raw in raws[1..];
  }

  lemma {:induction false} CleanAllIs(raws: seq<string>, clean: seq<string>, white: char -> bool)
    requires |SetOf(clean)| == |clean|
    ensures var list := CleanAll(raws, clean, white);
            && (list.Texts? <==> Accepted(raws, white))
            && (list.Texts? ==> SetOf(list.texts) == SetOf(clean) + Texts(raws, white) && |SetOf(list.texts)| == |list.texts|)
    decreases |raws|
  {
    hide Sanitize;
    if raws == [] {
      assert Texts(raws, white) == {} && SetOf(clean) + {} == SetOf(clean);
    } else if Sanitize(raws[0], white).Bad? {
      assert raws[0] in raws;
    } else {
      var p := Sanitize(raws[0], white).text;
      var clean' := if p in clean then clean else clean + [p];
      TextsHead(raws, white);
      CleanMore(clean, p);
      hide Texts, SetOf, Accepted;
      CleanAllIs(raws[1..], clean', white);
      assert CleanAll(raws, clean, white) == CleanAll(raws[1..], clean', white);
      UnionMoves(SetOf(clean), p, Texts(raws[1..], white));
    }
  }

  lemma CleanMore(clean: seq<string>, p: string)
    requires |SetOf(clean)| == |clean|
    ensures var clean' := if p in clean then clean else clean + [p];
            SetOf(clean') == SetOf(clean) + {p} && |SetOf(clean')| == |clean'|
  {
    SetOfPush(clean, p);
    InSet(clean, p);
    assert p in SetOf(clean) ==> SetOf(clean) + {p} == SetOf(clean);
    hide SetOf;
  }

  lemma UnionMoves(a: set<string>, p: string, b: set<string>)
    ensures a + {p} + b == a + ({p} + b)
  {
  }

  /** The texts are looked at in order, and the first refused one is the answer. */
  lemma {:induction false} FirstRefused(raws: seq<string>, clean: seq<string>, white: char -> bool)
    ensures var list := CleanAll(raws, clean, white);
            list.BadText? ==> exists i :: 0 <= i < |raws| && Sanitize(raws[i], white) == Bad(list.error)
                                          && Accepted(raws[..i], white)
    decreases |raws|
  {
    hide Sanitize;
    if raws != [] {
      if Sanitize(raws[0], white).Bad? {
        assert raws[..0] == [];
      } else {
        var p := Sanitize(raws[0], white).text;
        var list := CleanAll(raws[1..], if p in clean then clean else clean + [p], white);
        FirstRefused(raws[1..], if p in clean then clean else clean + [p], white);
        if list.BadText? {
          hide Accepted;
          var i :| 0 <= i < |raws[1..]| && Sanitize(raws[1..][i], white) == Bad(list.error) && Accepted(raws[1..][..i], white);
          LaterText(raws, i, white);
          assert raws[i + 1] == raws[1..][i];
        }
      }
    }
  }

  lemma LaterText(raws: seq<string>, i: nat, white: char -> bool)
    requires i < |raws| - 1 && Sanitize(raws[0], white).Ok? && Accepted(raws[1..][..i], white)
    ensures Accepted(raws[..i + 1], white)
  {
    hide Sanitize;
    assert forall raw | raw in raws[..i + 1] :: raw == raws[0] || raw in raws[1..][..i];
  }

  /** The dashboard's replacement of a guild's prefixes goes through exactly when every text is
      accepted and they come to 15 different ones at most. Then exactly those are stored;
      else nothing changes, and the first refused text or their number is the answer. */
  lemma PutIff(c: Config, s: State, g: Guild, raws: seq<string>)
    ensures var t, reply := Next(c, s, Put(g, raws)), Answer(c, s, Put(g, raws));
            && (reply.Done? <==> Accepted(raws, c.white) && |Texts(raws, c.white)| <= 15)
            && (reply.Done? ==> RowsOf(t.rows, g) == Texts(raws, c.white))
            && (reply.Refused? ==> t == s && if Accepted(raws, c.white) then reply.error == Full
                  else exists i :: 0 <= i < |raws| && Sanitize(raws[i], c.white) == Bad(reply.error)
                                   && Accepted(raws[..i], c.white))
  {
    assert SetOf<string>([]) == {};
    CleanAllIs(raws, [], c.white);
    FirstRefused(raws, [], c.white);
    var list := CleanAll(raws, [], c.white);
    assert {} + Texts(raws, c.white) == Texts(raws, c.white);
    if list.Texts? {
      RowsPut(s.rows, g, list.texts);
    }
    hide CleanAll, Texts, Accepted, SetOf, RowsOf, DropGuild, SortByLen, Sanitize;
  }

  // ---- one prefix at a time -----------------------------------------------

  /** A prefix is added exactly when it is accepted, not stored yet and the list it is added to
      has room; a refusal changes nothing. */
  lemma AddIff(c: Config, s: State, g: Guild, raw: string, listing: seq<string>)
    requires Inv(c, s) && Lists(listing, RowsOf(s.rows, g))
    ensures var e := Add(g, raw, listing);
            var t, reply, clean := Next(c, s, e), Answer(c, s, e), Sanitize(raw, c.white);
            match clean
            case Bad(error) => reply == Refused(error) && t == s
            case Ok(p) =>
              if p in RowsOf(s.rows, g) then reply == Refused(Present) && t == s
              else if |CustomPrefixes(s, g, listing)| >= 15 then reply == Refused(Full) && t == s
              else reply == Done && RowsOf(t.rows, g) == RowsOf(s.rows, g) + {p}
  {
    CurrentIsRows(c, s, g, listing);
    if Sanitize(raw, c.white).Ok? {
      RowsGain(s.rows, g, Sanitize(raw, c.white).text);
      InSet(CustomPrefixes(s, g, listing), Sanitize(raw, c.white).text);
    }
    hide Inv, Sanitize, CustomPrefixes, RowsOf, SetOf, SortByLen, Ascending, Lists;
  }

  lemma InSet(list: seq<string>, p: string)
    ensures p in SetOf(list) <==> p in list
  {
  }

  /** A prefix is removed exactly when it is accepted and stored. */
  lemma RemoveIff(c: Config, s: State, g: Guild, raw: string, listing: seq<string>)
    requires Inv(c, s) && Lists(listing, RowsOf(s.rows, g))
    ensures var e := Remove(g, raw, listing);
            var t, reply, clean := Next(c, s, e), Answer(c, s, e), Sanitize(raw, c.white);
            match clean
            case Bad(error) => reply == Refused(error) && t == s
            case Ok(p) =>
              if p in RowsOf(s.rows, g) then reply == Done && RowsOf(t.rows, g) == RowsOf(s.rows, g) - {p}
              else reply == Refused(Missing) && t == s
  {
    CurrentIsRows(c, s, g, listing);
    if Sanitize(raw, c.white).Ok? {
      RowsLose(s.rows, g, Sanitize(raw, c.white).text);
      InSet(CustomPrefixes(s, g, listing), Sanitize(raw, c.white).text);
    }
    hide Inv, Sanitize, CustomPrefixes, RowsOf, SetOf, SortByLen, Ascending, Lists;
  }

  // ---- the hooks ----------------------------------------------------------

  /** A reset, and leaving a guild, leave it without rows and without a cached list, so that its
      messages are read with the default alone, as those of no guild are. */
  lemma ClearedIsDefault(c: Config, s: State, g: Guild, e: Event, content: string)
    requires e == Reset(g) || e == GuildDelete(g)
    ensures var t := Next(c, s, e);
            && RowsOf(t.rows, g) == {} && g !in t.cache
            && DynamicPrefix(c, t, Some(g), content) == DynamicPrefix(c, t, None, content)
            && (DynamicPrefix(c, t, Some(g), content).Some? <==> Fits(c.default, content))
  {
    var t := Next(c, s, e);
    assert RowsOf(t.rows, g) == {} by {
      assert t.rows == DropGuild(s.rows, g);
    }
    assert GuildPrefixes(c, t, Some(g)) == [c.default] && GuildPrefixes(c, t, None) == [c.default];
    LongestOfOne(c.default, content);
    hide Fits, Longest, SplitAt, RowsOf;
  }

  lemma LongestOfOne(p: string, content: string)
    ensures Longest([p], content) == if Fits(p, content) then Some(ByteLen(p)) else None
    ensures Fits(p, content) ==> SplitAt(content, ByteLen(p)).Some?
  {
    assert [p][1..] == [];
    if Fits(p, content) {
      SplitAtBoundary(p, content);
    }
    hide Fits, ByteLen, SplitAt;
  }

  /** A guild seen for the first time gets the default stored exactly when it has nothing
      stored, and is cached afterwards. */
  lemma FirstSeenStores(c: Config, s: State, g: Guild, listing: seq<string>)
    requires Lists(listing, RowsOf(s.rows, g))
    ensures var t := Next(c, s, GuildCreate(g, listing));
            && g in t.cache
            && RowsOf(t.rows, g) ==
                 (if g !in s.cache && RowsOf(s.rows, g) == {} then {c.default} else RowsOf(s.rows, g))
  {
    ListsAll(listing, RowsOf(s.rows, g));
    SortKeepsSet(listing);
    NothingStored(s, g, listing);
    RowsGain(s.rows, g, c.default);
    assert {} + {c.default} == {c.default};
    hide Lists, RowsOf, SetOf, SortByLen, PushAll, SortAll;
  }

  lemma NothingStored(s: State, g: Guild, listing: seq<string>)
    requires SetOf(SortByLen(listing)) == RowsOf(s.rows, g)
    ensures SortByLen(listing) == [] <==> RowsOf(s.rows, g) == {}
  {
    var list := SortByLen(listing);
    if list != [] {
      assert list[0] in SetOf(list);
    } else {
      assert SetOf(list) == {};
    }
  }
}
