/** Spam detection: a deque of recent timestamps against counting the whole history. */
module Spam {
  import opened Base

  type Time = int
  type Key = nat

  /** The timestamps less than `length` old. */
  function Recent(history: seq<Time>, now: Time, length: nat): seq<Time> {
    if history == [] then []
    else (if now - history[0] < length then [history[0]] else []) + Recent(history[1..], now, length)
  }

  /** Drop from the front while too old: the loop over the deque. */
  function DropOld(window: seq<Time>, now: Time, length: nat): seq<Time> {
    if window != [] && now - window[0] >= length then DropOld(window[1..], now, length) else window
  }

  class SpamWindow {
    const cap: nat
    var windows: map<Key, seq<Time>>

    constructor (cap: nat)
      ensures this.cap == cap && windows == map[]
    {
      this.cap, windows := cap, map[];
    }

    /** Record a message and tell whether its author now has `messages` recent ones. */
    method IsSpamming(key: Key, now: Time, messages: int, secs: int) returns (spamming: bool, evicted: Option<Key>)
      requires cap >= 1 && |windows| <= cap
      modifies this`windows
      ensures |windows| <= cap
      ensures messages <= 0 || secs <= 0 ==> !spamming && windows == old(windows)
      ensures messages > 0 && secs > 0 ==>
                && (evicted.Some? ==> evicted.value in old(windows) && evicted.value != key && |old(windows)| == cap)
                && (evicted.None? ==> key in old(windows) || |old(windows)| < cap)
                && windows == Recorded(old(windows), key, now, secs, evicted)
                && spamming == (|windows[key]| >= messages)
    {
      if messages <= 0 || secs <= 0 {
        return false, None;
      }
      evicted := EvictIfFull(key);
      var w := (if key in windows then windows[key] else []) + [now];
      w := DropFront(w, now, secs);
      PutOne(windows, key, w);
      windows := windows[key := w];
      spamming := |w| >= messages;
    }

    /** `evict_if_full`: make room for a new key when the map is at its cap. */
    method EvictIfFull(key: Key) returns (evicted: Option<Key>)
      requires cap >= 1 && |windows| <= cap
      modifies this`windows
      ensures evicted.Some? <==> |old(windows)| == cap && key !in old(windows)
      ensures evicted.Some? ==> evicted.value in old(windows) && evicted.value != key
      ensures windows == if evicted.Some? then old(windows) - {evicted.value} else old(windows)
      ensures key in windows || |windows| < cap
    {
      evicted := None;
      if |windows| >= cap && key !in windows {
        var victim :| victim in windows.Keys;
        evicted := Some(victim);
        RemoveOne(windows, victim);
        windows := windows - {victim};
      }
    }
  }

  method DropFront(window: seq<Time>, now: Time, secs: nat) returns (w: seq<Time>)
    ensures w == DropOld(window, now, secs)
  {
    w := window;
    while w != [] && now - w[0] >= secs
      invariant DropOld(w, now, secs) == DropOld(window, now, secs)
      decreases |w|
    {
      w := w[1..];
    }
  }

  function Recorded(windows: map<Key, seq<Time>>, key: Key, now: Time, secs: nat, evicted: Option<Key>): map<Key, seq<Time>> {
    var kept := if evicted.Some? then windows - {evicted.value} else windows;
    var window := if key in windows then windows[key] else [];
    kept[key := DropOld(window + [now], now, secs)]
  }

  // ---- the deque is the recent history ------------------------------------

  lemma {:induction false} DropOldIsRecent(times: seq<Time>, now: Time, length: nat)
    requires Sorted(times)
    ensures DropOld(times, now, length) == Recent(times, now, length)
  {
    if times != [] {
      if now - times[0] >= length {
        DropOldIsRecent(times[1..], now, length);
      } else {
        AllRecent(times, now, length);
      }
    }
  }

  lemma {:induction false} AllRecent(times: seq<Time>, now: Time, length: nat)
    requires Sorted(times) && (times != [] ==> now - times[0] < length)
    ensures Recent(times, now, length) == times
  {
    if times != [] {
      assert |times| > 1 ==> times[1] in times[1..];
      AllRecent(times[1..], now, length);
      HeadAndTail(times);
    }
  }

  lemma {:induction false} RecentOfRecent(history: seq<Time>, before: Time, now: Time, length: nat)
    requires before <= now
    ensures Recent(Recent(history, before, length) + [now], now, length) == Recent(history + [now], now, length)
  {
    if history == [] {
      assert Recent([], before, length) + [now] == [now] == [] + [now];
    } else {
      var rest := Recent(history[1..], before, length);
      RecentOfRecent(history[1..], before, now, length);
      assert (history + [now])[1..] == history[1..] + [now];
      if now - history[0] < length || before - history[0] < length {
        assert Recent(history, before, length) == (if before - history[0] < length then [history[0]] else []) + rest;
      }
      if before - history[0] < length {
        assert ([history[0]] + rest + [now])[1..] == rest + [now];
      } else {
        assert [] + rest == rest;
      }
    }
  }

  lemma {:induction false} RecentIsSorted(history: seq<Time>, now: Time, length: nat)
    requires Sorted(history)
    ensures Sorted(Recent(history, now, length))
    ensures forall t | t in Recent(history, now, length) :: t in history
  {
    if history != [] {
      RecentIsSorted(history[1..], now, length);
      var rest := Recent(history[1..], now, length);
      assert ([history[0]] + rest)[1..] == rest;
      assert [] + rest == rest;
    }
  }

  lemma {:induction false} SortedAppend(times: seq<Time>, t: Time)
    requires Sorted(times) && forall x | x in times :: x <= t
    ensures Sorted(times + [t])
  {
    if times != [] {
      assert (times + [t])[1..] == times[1..] + [t];
      assert times[0] in times && forall x | x in times[1..] :: x in times;
      SortedAppend(times[1..], t);
    }
  }

  /** A message by anyone, and the entry a full map gives up. */
  datatype Message = Message(time: Time, key: Key, evicted: Option<Key>)

  /** The windows after the first `n` messages. */
  function RecordAll(messages: seq<Message>, n: nat, secs: nat): map<Key, seq<Time>>
    requires n <= |messages|
  {
    if n == 0 then map[]
    else
      var m := messages[n - 1];
      Recorded(RecordAll(messages, n - 1, secs), m.key, m.time, secs, m.evicted)
  }

  /** When `key` sent one of the first `n` messages. */
  function HistoryOf(messages: seq<Message>, n: nat, key: Key): seq<Time>
    requires n <= |messages|
  {
    if n == 0 then []
    else if messages[n - 1].key == key then HistoryOf(messages, n - 1, key) + [messages[n - 1].time]
    else HistoryOf(messages, n - 1, key)
  }

  ghost predicate InOrder(messages: seq<Message>) {
    forall i, j | 0 <= i <= j < |messages| :: messages[i].time <= messages[j].time
  }

  lemma {:induction false} HistoryIsSorted(messages: seq<Message>, n: nat, key: Key)
    requires InOrder(messages) && n <= |messages|
    ensures Sorted(HistoryOf(messages, n, key))
    ensures forall t, k | t in HistoryOf(messages, n, key) && n <= k < |messages| :: t <= messages[k].time
  {
    if n > 0 {
      HistoryIsSorted(messages, n - 1, key);
      if messages[n - 1].key == key {
        SortedAppend(HistoryOf(messages, n - 1, key), messages[n - 1].time);
      }
    }
  }

  /** After the first `n` messages, none of which gave up `key`, the deque of `key` is
      its history cut down to the last `secs` seconds before its latest message. */
  ghost predicate DequeFollows(windows: map<Key, seq<Time>>, history: seq<Time>, key: Key, secs: nat) {
    if history == [] then key !in windows
    else key in windows && windows[key] == Recent(history, history[|history| - 1], secs)
  }

  lemma {:induction false} DequeIsRecentHistory(messages: seq<Message>, n: nat, key: Key, secs: nat)
    requires secs > 0 && InOrder(messages) && n <= |messages|
    requires forall m | m in messages :: m.evicted != Some(key)
    ensures DequeFollows(RecordAll(messages, n, secs), HistoryOf(messages, n, key), key, secs)
  {
    if n > 0 {
      var m := messages[n - 1];
      assert m in messages;
      DequeIsRecentHistory(messages, n - 1, key, secs);
      if m.key == key {
        var history := HistoryOf(messages, n - 1, key);
        HistoryIsSorted(messages, n - 1, key);
        assert forall t | t in history :: t <= m.time;
        RecordedIsRecent(RecordAll(messages, n - 1, secs), history, m, secs);
        hide Recent, Recorded, RecordAll, InOrder, Sorted;
        assert (history + [m.time])[|history|] == m.time;
      }
    }
  }

  lemma RecordedIsRecent(windows: map<Key, seq<Time>>, history: seq<Time>, m: Message, secs: nat)
    requires secs > 0 && DequeFollows(windows, history, m.key, secs)
    requires Sorted(history) && forall t | t in history :: t <= m.time
    ensures Recorded(windows, m.key, m.time, secs, m.evicted)[m.key] == Recent(history + [m.time], m.time, secs)
  {
    if history == [] {
      assert [] + [m.time] == [m.time];
      DropOldIsRecent([m.time], m.time, secs);
    } else {
      var last := history[|history| - 1];
      assert last in history;
      RecentOfRecent(history, last, m.time, secs);
      RecentIsSorted(history, last, secs);
      SortedAppend(Recent(history, last, secs), m.time);
      DropOldIsRecent(Recent(history, last, secs) + [m.time], m.time, secs);
    }
  }

  function CountRecent(history: seq<Time>, now: Time, length: nat): nat {
    if history == [] then 0 else (if now - history[0] < length then 1 else 0) + CountRecent(history[1..], now, length)
  }

  lemma {:induction false} RecentCounts(history: seq<Time>, now: Time, length: nat)
    ensures |Recent(history, now, length)| == CountRecent(history, now, length)
  {
    if history != [] {
      RecentCounts(history[1..], now, length);
    }
  }

  /** The verdict on the n-th message is the brute-force test over everything its
      author has sent, for an author who is never given up. */
  lemma VerdictIsCount(messages: seq<Message>, n: nat, secs: nat, limit: nat)
    requires secs > 0 && InOrder(messages) && n < |messages|
    requires forall x | x in messages :: x.evicted != Some(messages[n].key)
    ensures var m := messages[n];
            var window := Recorded(RecordAll(messages, n, secs), m.key, m.time, secs, m.evicted)[m.key];
            |window| >= limit <==> CountRecent(HistoryOf(messages, n + 1, m.key), m.time, secs) >= limit
  {
    var m := messages[n];
    DequeIsRecentHistory(messages, n, m.key, secs);
    HistoryIsSorted(messages, n, m.key);
    RecordedIsRecent(RecordAll(messages, n, secs), HistoryOf(messages, n, m.key), m, secs);
    RecentCounts(HistoryOf(messages, n + 1, m.key), m.time, secs);
  }
}
