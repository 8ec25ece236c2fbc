/** Message streams as values: what one pass over a stream keeps, window by window,
    and stable sorting by time. */
module RecordSpec {

  datatype Message = Message(time: nat, channel: string, content: string)

  // The step between window ends, in nanoseconds; windows are closed intervals.
  const STEP_TIME: nat := 1_000_000_000

  // The messages of one time, in order.
  function AtTime(s: seq<Message>, t: nat): seq<Message> {
    if s == [] then []
    else if s[0].time == t then [s[0]] + AtTime(s[1..], t)
    else AtTime(s[1..], t)
  }

  // Each message of that time, as often as it occurs, and nothing else.
  lemma {:induction false} AtTimeMeans(s: seq<Message>, t: nat, m: Message)
    ensures multiset(AtTime(s, t))[m] == if m.time == t then multiset(s)[m] else 0
  {
    if s != [] {
      AtTimeMeans(s[1..], t, m);
      assert s == [s[0]] + s[1..];
    }
  }

  lemma {:induction false} AtTimeConcat(a: seq<Message>, b: seq<Message>, t: nat)
    ensures AtTime(a + b, t) == AtTime(a, t) + AtTime(b, t)
  {
    if a == [] {
      assert a + b == b;
    } else {
      assert (a + b)[1..] == a[1..] + b;
      AtTimeConcat(a[1..], b, t);
    }
  }

  lemma AtTimeCons(m: Message, s: seq<Message>, t: nat)
    ensures AtTime([m] + s, t) == if m.time == t then [m] + AtTime(s, t) else AtTime(s, t)
  {
    assert ([m] + s)[1..] == s;
  }

  lemma AtTimeTail(s: seq<Message>, t: nat)
    requires s != []
    ensures AtTime(s[1..], t) == if s[0].time == t then AtTime(s, t)[1..] else AtTime(s, t)
  {
  }

  ghost predicate Before(s: seq<Message>, t: nat) {
    forall i :: 0 <= i < |s| ==> s[i].time < t
  }

  ghost predicate From(s: seq<Message>, t: nat) {
    forall i :: 0 <= i < |s| ==> s[i].time >= t
  }

  lemma {:induction false} AtTimeOutside(s: seq<Message>, t: nat)
    requires forall i :: 0 <= i < |s| ==> s[i].time != t
    ensures AtTime(s, t) == []
  {
    if s != [] { AtTimeOutside(s[1..], t); }
  }

  // ---------------------------------------------------------------------
  // Stable sorting

  ghost predicate Sorted(s: seq<Message>) {
    forall i, j :: 0 <= i < j < |s| ==> s[i].time <= s[j].time
  }

  // A multimap keeps equal keys in the order of their insertion.
  function Insert(s: seq<Message>, m: Message): seq<Message> {
    if s == [] || s[|s| - 1].time <= m.time then s + [m]
    else Insert(s[..|s| - 1], m) + [s[|s| - 1]]
  }

  lemma {:induction false} InsertSorted(s: seq<Message>, m: Message)
    requires Sorted(s)
    ensures Sorted(Insert(s, m)) && |Insert(s, m)| == |s| + 1
    ensures forall x :: x in Insert(s, m) <==> x in s || x == m
  {
    if s == [] || s[|s| - 1].time <= m.time {
    } else {
      InsertSorted(s[..|s| - 1], m);
      var r := Insert(s[..|s| - 1], m);
      assert forall x :: x in s <==> x in s[..|s| - 1] || x == s[|s| - 1];
      forall i | 0 <= i < |r| ensures r[i].time <= s[|s| - 1].time {
        assert r[i] in r;
      }
    }
  }

  lemma {:induction false} InsertAtTime(s: seq<Message>, m: Message, t: nat)
    ensures Sorted(s) ==> AtTime(Insert(s, m), t) == AtTime(s + [m], t)
  {
    if s == [] || s[|s| - 1].time <= m.time || !Sorted(s) {
    } else {
      var front, last := s[..|s| - 1], s[|s| - 1];
      InsertAtTime(front, m, t);
      AtTimeConcat(Insert(front, m), [last], t);
      AtTimeConcat(front, [m], t);
      AtTimeConcat(s, [m], t);
      AtTimeConcat(front, [last], t);
      assert s == front + [last];
      assert m.time != last.time;
    }
  }

  function StableSort(s: seq<Message>): seq<Message> {
    if s == [] then [] else Insert(StableSort(s[..|s| - 1]), s[|s| - 1])
  }

  lemma {:induction false} InsertMultiset(s: seq<Message>, m: Message)
    ensures multiset(Insert(s, m)) == multiset(s) + multiset{m}
  {
    if s == [] || s[|s| - 1].time <= m.time {
    } else {
      InsertMultiset(s[..|s| - 1], m);
      assert s == s[..|s| - 1] + [s[|s| - 1]];
    }
  }

  /** The sort is a permutation, */
  lemma {:induction false} StableSortPermutes(s: seq<Message>)
    ensures multiset(StableSort(s)) == multiset(s)
  {
    if s != [] {
      StableSortPermutes(s[..|s| - 1]);
      InsertMultiset(StableSort(s[..|s| - 1]), s[|s| - 1]);
      assert s == s[..|s| - 1] + [s[|s| - 1]];
    }
  }

  /** and it is stable: messages of one time keep their order. */
  lemma {:induction false} StableSortIsStable(s: seq<Message>)
    ensures Sorted(StableSort(s)) && forall t :: AtTime(StableSort(s), t) == AtTime(s, t)
  {
    if s != [] {
      var front, last := s[..|s| - 1], s[|s| - 1];
      StableSortIsStable(front);
      InsertSorted(StableSort(front), last);
      forall t ensures AtTime(StableSort(s), t) == AtTime(s, t) {
        InsertAtTime(StableSort(front), last, t);
        AtTimeConcat(StableSort(front), [last], t);
        AtTimeConcat(front, [last], t);
        assert s == front + [last];
      }
    }
  }

  function InsertAll(s: seq<Message>, more: seq<Message>): seq<Message> {
    if more == [] then s else Insert(InsertAll(s, more[..|more| - 1]), more[|more| - 1])
  }

  lemma {:induction false} InsertAllSorted(s: seq<Message>, more: seq<Message>)
    requires Sorted(s)
    ensures Sorted(InsertAll(s, more)) && |InsertAll(s, more)| == |s| + |more|
    ensures forall x :: x in InsertAll(s, more) ==> x in s || x in more
  {
    if more != [] {
      InsertAllSorted(s, more[..|more| - 1]);
      InsertSorted(InsertAll(s, more[..|more| - 1]), more[|more| - 1]);
    }
  }

  lemma {:induction false} InsertAllConcat(s: seq<Message>, a: seq<Message>, b: seq<Message>)
    ensures InsertAll(s, a + b) == InsertAll(InsertAll(s, a), b)
  {
    if b == [] {
      assert a + b == a;
    } else {
      assert (a + b)[..|a + b| - 1] == a + b[..|b| - 1];
      InsertAllConcat(s, a, b[..|b| - 1]);
    }
  }

  lemma {:induction false} InsertAllAtTime(s: seq<Message>, more: seq<Message>, t: nat)
    requires Sorted(s)
    ensures AtTime(InsertAll(s, more), t) == AtTime(s, t) + AtTime(more, t)
  {
    if more != [] {
      var front, last := more[..|more| - 1], more[|more| - 1];
      InsertAllAtTime(s, front, t);
      InsertAllSorted(s, front);
      InsertAtTime(InsertAll(s, front), last, t);
      AtTimeConcat(InsertAll(s, front), [last], t);
      AtTimeConcat(front, [last], t);
      assert more == front + [last];
    }
  }

  lemma {:induction false} AtTimeMember(s: seq<Message>, i: nat)
    requires i < |s|
    ensures AtTime(s, s[i].time) != []
  {
    if i > 0 { AtTimeMember(s[1..], i - 1); }
  }

  /** and it is the only one. */
  lemma {:induction false} StableSortUnique(a: seq<Message>, b: seq<Message>)
    requires Sorted(a) && Sorted(b) && forall t :: AtTime(a, t) == AtTime(b, t)
    ensures a == b
    decreases |a|
  {
    assert b != [] ==> AtTime(a, b[0].time) == AtTime(b, b[0].time);
    if a != [] {
      AtTimeMember(a, 0);
      assert AtTime(a, a[0].time) == AtTime(b, a[0].time);
      assert b != [];
      assert AtTime(a, b[0].time) == AtTime(b, b[0].time);
      FirstTime(a, b[0].time);
      FirstTime(b, a[0].time);
      assert a[0].time == b[0].time;
      assert AtTime(a, a[0].time)[0] == AtTime(b, a[0].time)[0];
      forall t ensures AtTime(a[1..], t) == AtTime(b[1..], t) {
        AtTimeTail(a, t);
        AtTimeTail(b, t);
        assert AtTime(a, t) == AtTime(b, t);
      }
      StableSortUnique(a[1..], b[1..]);
    }
  }

  lemma FirstTime(s: seq<Message>, t: nat)
    requires Sorted(s) && s != [] && AtTime(s, t) != []
    ensures s[0].time <= t
  {
    if t < s[0].time { AtTimeOutside(s, t); }
  }

  // ---------------------------------------------------------------------
  // One window of one stream

  // What reading a window returns: reading stops at the first message past `end`.
  function Window(rem: seq<Message>, begin: nat, end: nat): seq<Message> {
    if rem == [] || rem[0].time > end then []
    else if rem[0].time < begin then Window(rem[1..], begin, end)
    else [rem[0]] + Window(rem[1..], begin, end)
  }

  // What it leaves unread.
  function Rest(rem: seq<Message>, end: nat): seq<Message> {
    if rem == [] || rem[0].time > end then rem else Rest(rem[1..], end)
  }

  lemma {:induction false} EarlyPrefix(pre: seq<Message>, rem: seq<Message>, begin: nat, end: nat)
    requires Before(pre, begin) && begin <= end
    ensures Window(pre + rem, begin, end) == Window(rem, begin, end)
    ensures Rest(pre + rem, end) == Rest(rem, end)
  {
    if pre == [] {
      assert pre + rem == rem;
    } else {
      assert (pre + rem)[1..] == pre[1..] + rem;
      EarlyPrefix(pre[1..], rem, begin, end);
    }
  }

  lemma {:induction false} RestSplits(rem: seq<Message>, end: nat) returns (pre: seq<Message>)
    ensures rem == pre + Rest(rem, end) && Before(pre, end + 1)
  {
    if rem == [] || rem[0].time > end {
      pre := [];
    } else {
      var p := RestSplits(rem[1..], end);
      pre := [rem[0]] + p;
    }
  }

  // ---------------------------------------------------------------------
  // Any list of windows of one stream

  // A closed window of time.
  datatype TimeWindow = TimeWindow(begin: nat, end: nat)

  ghost predicate Consecutive(ws: seq<TimeWindow>) {
    && (forall i :: 0 <= i < |ws| ==> ws[i].begin <= ws[i].end)
    && (forall i, j :: 0 <= i < j < |ws| ==> ws[i].end < ws[j].begin)
  }

  function InRange(s: seq<Message>, begin: nat, end: nat): seq<Message> {
    if s == [] then []
    else if begin <= s[0].time <= end then [s[0]] + InRange(s[1..], begin, end)
    else InRange(s[1..], begin, end)
  }

  // Each message in range, as often as it occurs, and nothing else.
  lemma {:induction false} InRangeMeans(s: seq<Message>, begin: nat, end: nat, m: Message)
    ensures multiset(InRange(s, begin, end))[m] == if begin <= m.time <= end then multiset(s)[m] else 0
  {
    if s != [] {
      InRangeMeans(s[1..], begin, end, m);
      assert s == [s[0]] + s[1..];
    }
  }

  // What the windows before have left of the stream.
  function LeftAfter(all: seq<Message>, ws: seq<TimeWindow>): seq<Message> {
    if ws == [] then all else Rest(LeftAfter(all, ws[..|ws| - 1]), ws[|ws| - 1].end)
  }

  lemma {:induction false} LeftIsSuffix(all: seq<Message>, ws: seq<TimeWindow>, b: nat) returns (pre: seq<Message>)
    requires forall i :: 0 <= i < |ws| ==> ws[i].end < b
    ensures all == pre + LeftAfter(all, ws) && Before(pre, b)
    decreases |ws|
  {
    if ws == [] {
      pre := [];
    } else {
      var front := ws[..|ws| - 1];
      var early := LeftIsSuffix(all, front, b);
      var passed := RestSplits(LeftAfter(all, front), ws[|ws| - 1].end);
      pre := early + passed;
    }
  }

  /** The windows do not disturb each other, whatever the order of the stream: reading
      one after the others returns what reading it alone would. */
  lemma WindowsIndependent(all: seq<Message>, ws: seq<TimeWindow>, i: nat)
    requires Consecutive(ws) && i < |ws|
    ensures Window(LeftAfter(all, ws[..i]), ws[i].begin, ws[i].end) == Window(all, ws[i].begin, ws[i].end)
  {
    var pre := LeftIsSuffix(all, ws[..i], ws[i].begin);
    EarlyPrefix(pre, LeftAfter(all, ws[..i]), ws[i].begin, ws[i].end);
  }

  // No message of the window follows one past it.
  ghost predicate NoneAfterEnd(s: seq<Message>, begin: nat, end: nat) {
    forall j, k :: 0 <= j < k < |s| && s[j].time > end ==> !(begin <= s[k].time <= end)
  }

  lemma {:induction false} NoneInRange(s: seq<Message>, begin: nat, end: nat)
    ensures InRange(s, begin, end) == [] <==> forall k :: 0 <= k < |s| ==> !(begin <= s[k].time <= end)
  {
    if s != [] {
      NoneInRange(s[1..], begin, end);
      assert forall k :: 0 < k < |s| ==> s[k] == s[1..][k - 1];
      assert forall k :: 0 <= k < |s| - 1 ==> s[1..][k] == s[k + 1];
    }
  }

  lemma NoneAfterEndStep(s: seq<Message>, begin: nat, end: nat)
    requires s != [] && s[0].time <= end
    ensures NoneAfterEnd(s, begin, end) <==> NoneAfterEnd(s[1..], begin, end)
  {
    assert forall k :: 0 < k < |s| ==> s[k] == s[1..][k - 1];
    assert forall k :: 0 <= k < |s| - 1 ==> s[1..][k] == s[k + 1];
  }

  /** Reading a window returns every message of it, once and in file order, if and only
      if none of them follows a message past the window. */
  lemma {:induction false} WindowReturnsAll(s: seq<Message>, begin: nat, end: nat)
    requires begin <= end
    ensures Window(s, begin, end) == InRange(s, begin, end) <==> NoneAfterEnd(s, begin, end)
  {
    if s != [] {
      if s[0].time > end {
        NoneInRange(s, begin, end);
        assert NoneAfterEnd(s, begin, end) <==> forall k :: 0 < k < |s| ==> !(begin <= s[k].time <= end);
      } else {
        NoneAfterEndStep(s, begin, end);
        WindowReturnsAll(s[1..], begin, end);
        if s[0].time >= begin {
          assert Window(s, begin, end)[1..] == Window(s[1..], begin, end);
          assert InRange(s, begin, end)[1..] == InRange(s[1..], begin, end);
        }
      }
    }
  }

  // What a list of windows returns, one after the other.
  function ReadInTurn(all: seq<Message>, ws: seq<TimeWindow>): seq<Message> {
    if ws == [] then []
    else
      var last := |ws| - 1;
      ReadInTurn(all, ws[..last]) + Window(LeftAfter(all, ws[..last]), ws[last].begin, ws[last].end)
  }

  lemma {:induction false} AdjacentRanges(s: seq<Message>, begin: nat, middle: nat, end: nat)
    requires Sorted(s) && begin <= middle <= end
    ensures InRange(s, begin, middle) + InRange(s, middle + 1, end) == InRange(s, begin, end)
  {
    if s != [] {
      if s[0].time > middle {
        NoneInRange(s, begin, middle);
        ClippedRange(s, middle + 1, end, begin, end);
      } else {
        AdjacentRanges(s[1..], begin, middle, end);
        var early, late := InRange(s[1..], begin, middle), InRange(s[1..], middle + 1, end);
        assert [s[0]] + early + late == [s[0]] + (early + late);
      }
    }
  }

  /** Windows that follow one another without a gap return, of a stream in time order,
      every message of the time they cover, each once and in file order. */
  lemma {:induction false} WindowsCover(all: seq<Message>, ws: seq<TimeWindow>)
    requires Sorted(all) && Consecutive(ws) && ws != []
    requires forall i :: 0 < i < |ws| ==> ws[i].begin == ws[i - 1].end + 1
    ensures ReadInTurn(all, ws) == InRange(all, ws[0].begin, ws[|ws| - 1].end)
    decreases |ws|
  {
    var last := |ws| - 1;
    var w := ws[last];
    WindowsIndependent(all, ws, last);
    WindowReturnsAll(all, w.begin, w.end);
    if last > 0 {
      WindowsCover(all, ws[..last]);
      assert ws[0].begin <= ws[last - 1].end;
      AdjacentRanges(all, ws[0].begin, ws[last - 1].end, w.end);
    }
  }

  // ---------------------------------------------------------------------
  // All windows of one stream

  // The last time of the window that holds `t`, in [begin, end].
  function WindowEnd(t: nat, begin: nat, end: nat): nat
    requires begin <= t
  {
    var e := begin + ((t - begin) / (STEP_TIME + 1)) * (STEP_TIME + 1) + STEP_TIME;
    if e > end then end else e
  }

  // Reading the windows of [begin, end] in turn keeps the messages in range that
  // no message of a later window precedes; `latest` is the latest time so far.
  function Kept(s: seq<Message>, latest: nat, begin: nat, end: nat): seq<Message> {
    if s == [] then []
    else
      var m := s[0];
      var rest := Kept(s[1..], if m.time > latest then m.time else latest, begin, end);
      if begin <= m.time <= end && latest <= WindowEnd(m.time, begin, end) then [m] + rest else rest
  }

  // No message in range follows a message of a later window.
  ghost predicate WindowOrdered(s: seq<Message>, latest: nat, begin: nat, end: nat) {
    s == [] ||
    var m := s[0];
    && (begin <= m.time <= end ==> latest <= WindowEnd(m.time, begin, end))
    && WindowOrdered(s[1..], if m.time > latest then m.time else latest, begin, end)
  }

  // Said of the stream itself.
  lemma {:induction false} WindowOrderedMeans(s: seq<Message>, latest: nat, begin: nat, end: nat)
    ensures WindowOrdered(s, latest, begin, end) <==>
            forall j :: 0 <= j < |s| && begin <= s[j].time <= end ==>
                        && latest <= WindowEnd(s[j].time, begin, end)
                        && forall i :: 0 <= i < j ==> s[i].time <= WindowEnd(s[j].time, begin, end)
  {
    if s != [] {
      var latest' := if s[0].time > latest then s[0].time else latest;
      WindowOrderedMeans(s[1..], latest', begin, end);
      assert forall j :: 0 < j < |s| ==> s[j] == s[1..][j - 1];
      assert forall j :: 0 <= j < |s| - 1 ==> s[1..][j] == s[j + 1];
    }
  }

  lemma {:induction false} KeptLength(s: seq<Message>, latest: nat, begin: nat, end: nat)
    ensures |Kept(s, latest, begin, end)| <= |InRange(s, begin, end)|
    ensures |Kept(s, latest, begin, end)| == |InRange(s, begin, end)| <==> WindowOrdered(s, latest, begin, end)
  {
    if s != [] {
      KeptLength(s[1..], if s[0].time > latest then s[0].time else latest, begin, end);
    }
  }

  /** Nothing in range is lost exactly when the stream is ordered by window; order
      inside a window does not matter. */
  lemma {:induction false} KeepsAll(s: seq<Message>, latest: nat, begin: nat, end: nat)
    ensures Kept(s, latest, begin, end) == InRange(s, begin, end) <==> WindowOrdered(s, latest, begin, end)
  {
    KeptLength(s, latest, begin, end);
    if s != [] {
      KeepsAll(s[1..], if s[0].time > latest then s[0].time else latest, begin, end);
    }
  }

  /** "No message in range is lost" is false of streams that are not ordered by
      window: a message of the first second after one of the second is passed over. One
      nanosecond less between them, and both are in the first window and kept. */
  lemma LateMessageLost(channel: string, content: string)
    ensures var (early, late) := (Message(0, channel, content), Message(1_000_000_001, channel, content));
            && Kept([late, early], 0, 0, 1_000_000_001) == [late]
            && InRange([late, early], 0, 1_000_000_001) == [late, early]
    ensures var (early, late) := (Message(0, channel, content), Message(1_000_000_000, channel, content));
            Kept([late, early], 0, 0, 1_000_000_001) == [late, early]
  {
    var early, end := Message(0, channel, content), 1_000_000_001;
    assert WindowEnd(0, 0, end) == 1_000_000_000;
    forall late: Message | late.time == end || late.time == end - 1
      ensures Kept([late, early], 0, 0, end) == if late.time == end then [late] else [late, early]
      ensures InRange([late, early], 0, end) == [late, early]
    {
      assert [late, early][1..] == [early] && [early][1..] == [];
      assert WindowEnd(end - 1, 0, end) == end - 1 && WindowEnd(end, 0, end) == end;
      assert Kept([early], late.time, 0, end) == if late.time == end then [] else [early];
      assert InRange([early], 0, end) == [early] + InRange([], 0, end);
    }
  }

  lemma EndOfWindow(t: nat, begin: nat, end: nat)
    requires begin <= t <= end
    ensures t <= WindowEnd(t, begin, end) <= end
  {
    var q := (t - begin) / (STEP_TIME + 1);
    assert t - begin == q * (STEP_TIME + 1) + (t - begin) % (STEP_TIME + 1);
  }

  /** A stream in time order is ordered by window. */
  lemma {:induction false} SortedIsWindowOrdered(s: seq<Message>, latest: nat, begin: nat, end: nat)
    requires Sorted(s) && From(s, latest)
    ensures WindowOrdered(s, latest, begin, end)
  {
    if s != [] {
      if begin <= s[0].time <= end { EndOfWindow(s[0].time, begin, end); }
      SortedIsWindowOrdered(s[1..], s[0].time, begin, end);
    }
  }

  // The windows are cut on a grid that starts at `begin`.
  ghost predicate OnGrid(b: nat, begin: nat) {
    b >= begin && (b - begin) % (STEP_TIME + 1) == 0
  }

  lemma GridWindow(b: nat, t: nat, begin: nat, end: nat)
    requires OnGrid(b, begin) && b <= t <= end && t <= b + STEP_TIME
    ensures WindowEnd(t, begin, end) == if b + STEP_TIME > end then end else b + STEP_TIME
  {
    var q := (b - begin) / (STEP_TIME + 1);
    assert b - begin == q * (STEP_TIME + 1);
    assert t - begin == q * (STEP_TIME + 1) + (t - b);
    assert (t - begin) / (STEP_TIME + 1) == q;
  }

  // What precedes the window changes nothing in it.
  lemma {:induction false} KeptPrefix(pre: seq<Message>, rem: seq<Message>, latest: nat,
                                      b: nat, t: nat, begin: nat, end: nat) returns (latest': nat)
    requires Before(pre, b) && b <= t && latest < b
    ensures latest' < b
    ensures AtTime(Kept(pre + rem, latest, begin, end), t) == AtTime(Kept(rem, latest', begin, end), t)
  {
    if pre == [] {
      assert pre + rem == rem;
      latest' := latest;
    } else {
      assert (pre + rem)[1..] == pre[1..] + rem;
      latest' := KeptPrefix(pre[1..], rem, if pre[0].time > latest then pre[0].time else latest, b, t, begin, end);
    }
  }

  lemma {:induction false} KeptAfterLater(rem: seq<Message>, latest: nat, t: nat, begin: nat, end: nat)
    requires begin <= t && latest > WindowEnd(t, begin, end)
    ensures AtTime(Kept(rem, latest, begin, end), t) == []
  {
    if rem != [] {
      KeptAfterLater(rem[1..], if rem[0].time > latest then rem[0].time else latest, t, begin, end);
    }
  }

  lemma {:induction false} KeptInWindow(rem: seq<Message>, latest: nat, b: nat, e: nat,
                                        t: nat, begin: nat, end: nat)
    requires begin <= b <= t <= e <= end && WindowEnd(t, begin, end) == e && latest <= e
    ensures AtTime(Kept(rem, latest, begin, end), t) == AtTime(Window(rem, b, e), t)
  {
    if rem != [] {
      var latest' := if rem[0].time > latest then rem[0].time else latest;
      AtTimeCons(rem[0], Kept(rem[1..], latest', begin, end), t);
      AtTimeCons(rem[0], Window(rem[1..], b, e), t);
      if rem[0].time > e {
        KeptAfterLater(rem[1..], latest', t, begin, end);
      } else {
        KeptInWindow(rem[1..], latest', b, e, t, begin, end);
      }
    }
  }

  /** Reading one window from where the windows before it have left the stream
      returns, time by time, what the whole pass keeps. */
  lemma WindowIsKept(all: seq<Message>, rem: seq<Message>, pre: seq<Message>, b: nat, e: nat,
                     t: nat, begin: nat, end: nat)
    requires all == pre + rem && Before(pre, b) && OnGrid(b, begin) && b <= t <= e
    requires e == if b + STEP_TIME > end then end else b + STEP_TIME
    ensures AtTime(Kept(all, 0, begin, end), t) == AtTime(Window(rem, b, e), t)
  {
    GridWindow(b, t, begin, end);
    if b == 0 {
      assert |pre| > 0 ==> pre[0].time < b;
      assert all == rem;
      KeptInWindow(rem, 0, b, e, t, begin, end);
    } else {
      var latest := KeptPrefix(pre, rem, 0, b, t, begin, end);
      KeptInWindow(rem, latest, b, e, t, begin, end);
    }
  }

  // ---------------------------------------------------------------------
  // Several streams

  // What the windows keep of each stream, stream after stream.
  function AllKept(streams: seq<seq<Message>>, begin: nat, end: nat): seq<Message> {
    if streams == [] then []
    else AllKept(streams[..|streams| - 1], begin, end) + Kept(streams[|streams| - 1], 0, begin, end)
  }

  function AllInRange(streams: seq<seq<Message>>, begin: nat, end: nat): seq<Message> {
    if streams == [] then []
    else AllInRange(streams[..|streams| - 1], begin, end) + InRange(streams[|streams| - 1], begin, end)
  }

  /** If every stream is ordered by window, the windows lose nothing at all. */
  lemma {:induction false} AllKeptIsAll(streams: seq<seq<Message>>, begin: nat, end: nat)
    requires forall i :: 0 <= i < |streams| ==> WindowOrdered(streams[i], 0, begin, end)
    ensures AllKept(streams, begin, end) == AllInRange(streams, begin, end)
  {
    if streams != [] {
      AllKeptIsAll(streams[..|streams| - 1], begin, end);
      KeepsAll(streams[|streams| - 1], 0, begin, end);
    }
  }

  // Only messages of the stream and of the range are kept.
  lemma {:induction false} KeptOnly(s: seq<Message>, latest: nat, t: nat, begin: nat, end: nat)
    requires Before(s, t) || !(begin <= t <= end)
    ensures AtTime(Kept(s, latest, begin, end), t) == []
  {
    if s != [] {
      KeptOnly(s[1..], if s[0].time > latest then s[0].time else latest, t, begin, end);
    }
  }

  // The messages of the wanted channels; no channel named means all of them.
  predicate Wanted(m: Message, channels: set<string>) {
    channels == {} || m.channel in channels
  }

  function Select(s: seq<Message>, channels: set<string>): seq<Message> {
    if s == [] then []
    else
      var front := Select(s[..|s| - 1], channels);
      if Wanted(s[|s| - 1], channels) then front + [s[|s| - 1]] else front
  }

  // The messages of one channel, in order.
  function OnChannel(s: seq<Message>, channel: string): seq<Message> {
    if s == [] then []
    else
      var front := OnChannel(s[..|s| - 1], channel);
      if s[|s| - 1].channel == channel then front + [s[|s| - 1]] else front
  }

  lemma {:induction false} OnChannelMeans(s: seq<Message>, channel: string, m: Message)
    ensures multiset(OnChannel(s, channel))[m] == if m.channel == channel then multiset(s)[m] else 0
  {
    if s != [] {
      OnChannelMeans(s[..|s| - 1], channel, m);
      assert s == s[..|s| - 1] + [s[|s| - 1]];
    }
  }

  /** Of each channel asked for, and of every channel if none is named, all messages stay
      in their order; of any other channel none does. */
  lemma {:induction false} SelectedChannels(s: seq<Message>, channels: set<string>, channel: string)
    ensures OnChannel(Select(s, channels), channel) ==
            if channels == {} || channel in channels then OnChannel(s, channel) else []
    ensures channels == {} ==> Select(s, channels) == s
  {
    if s != [] {
      SelectedChannels(s[..|s| - 1], channels, channel);
      assert s == s[..|s| - 1] + [s[|s| - 1]];
      var front := Select(s[..|s| - 1], channels);
      assert (front + [s[|s| - 1]])[..|front|] == front;
    }
  }

  // `r` is what stands in `s` at the ascending positions `at`; what stands at the other
  // positions is of channels not asked for.
  ghost predicate Picks(r: seq<Message>, s: seq<Message>, at: seq<nat>, channels: set<string>) {
    && |at| == |r|
    && (forall i, j :: 0 <= i < j < |at| ==> at[i] < at[j])
    && (forall i :: 0 <= i < |at| ==> at[i] < |s| && r[i] == s[at[i]])
    && (forall i :: 0 <= i < |r| ==> channels == {} || r[i].channel in channels)
    && (forall k: nat :: k < |s| && k !in at ==> channels != {} && s[k].channel !in channels)
  }

  lemma PicksMore(r: seq<Message>, s: seq<Message>, at: seq<nat>, channels: set<string>, m: Message)
    requires Picks(r, s, at, channels)
    ensures channels == {} || m.channel in channels ==> Picks(r + [m], s + [m], at + [|s|], channels)
    ensures channels != {} && m.channel !in channels ==> Picks(r, s + [m], at, channels)
  {
    forall k: nat | k < |s| && k !in at + [|s|] ensures k !in at {
      assert k in at ==> k in at + [|s|];
    }
    assert (at + [|s|])[|at|] == |s|;
  }

  /** The selection is all that is wanted, in order. */
  lemma {:induction false} SelectPicks(s: seq<Message>, channels: set<string>) returns (at: seq<nat>)
    ensures Picks(Select(s, channels), s, at, channels)
  {
    at := [];
    if s != [] {
      var front, last := s[..|s| - 1], s[|s| - 1];
      var before := SelectPicks(front, channels);
      PicksMore(Select(front, channels), front, before, channels, last);
      at := SelectLast(s, before, channels);
    }
  }

  lemma SelectLast(s: seq<Message>, before: seq<nat>, channels: set<string>) returns (at: seq<nat>)
    requires s != []
    requires var (r, front, last) := (Select(s[..|s| - 1], channels), s[..|s| - 1], s[|s| - 1]);
             if channels == {} || last.channel in channels
             then Picks(r + [last], front + [last], before + [|front|], channels)
             else Picks(r, front + [last], before, channels)
    ensures Picks(Select(s, channels), s, at, channels)
  {
    var front, last := s[..|s| - 1], s[|s| - 1];
    assert front + [last] == s;
    at := if Wanted(last, channels) then before + [|front|] else before;
  }

  lemma {:induction false} SelectSorted(s: seq<Message>, channels: set<string>)
    requires Sorted(s)
    ensures Sorted(Select(s, channels))
    ensures forall m :: m in Select(s, channels) ==> m in s && Wanted(m, channels)
  {
    if s != [] {
      SelectSorted(s[..|s| - 1], channels);
      var front := Select(s[..|s| - 1], channels);
      forall i | 0 <= i < |front| ensures front[i].time <= s[|s| - 1].time {
        assert front[i] in s[..|s| - 1];
      }
    }
  }

  // Clipping the range to where the messages are changes nothing.
  lemma {:induction false} ClippedRange(s: seq<Message>, begin: nat, end: nat, begin': nat, end': nat)
    requires forall i :: 0 <= i < |s| ==> (begin <= s[i].time <= end <==> begin' <= s[i].time <= end')
    ensures InRange(s, begin, end) == InRange(s, begin', end')
  {
    if s != [] { ClippedRange(s[1..], begin, end, begin', end'); }
  }
}
