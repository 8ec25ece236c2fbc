/** The windowed merge of cyber/record/record_viewer.cc over any number of readers.
    Times are unbounded numbers here; the source keeps them in 64 bits. */
module RecordViewer {
  import opened Options
  import opened RecordSpec
  import opened RecordReader

  const BUFFER_MIN_SIZE: nat := 128
  const TIME_MAX: nat := 0xFFFF_FFFF_FFFF_FFFF

  // What a reader contributes: a reader whose file did not open reads nothing.
  function Stream(r: Reader): seq<Message> {
    if r.isValid then r.All() else []
  }

  function Streams(readers: seq<Reader>): seq<seq<Message>> {
    seq(|readers|, i requires 0 <= i < |readers| => Stream(readers[i]))
  }

  // What is left of `all` is `rem`, and nothing at or after `time` has gone.
  ghost predicate Suffix(all: seq<Message>, rem: seq<Message>, time: nat) {
    && |rem| <= |all|
    && all[|all| - |rem|..] == rem
    && Before(all[..|all| - |rem|], time)
  }

  lemma SuffixRest(all: seq<Message>, rem: seq<Message>, time: nat, end: nat)
    requires Suffix(all, rem, time) && time <= end + 1
    ensures Suffix(all, Rest(rem, end), end + 1)
  {
    var pre := RestSplits(rem, end);
    var gone := all[..|all| - |rem|];
    assert all == gone + rem;
    assert all == (gone + pre) + Rest(rem, end);
    assert all[..|all| - |Rest(rem, end)|] == gone + pre;
  }

  // A window before the file takes nothing.
  lemma UntouchedWindow(rem: seq<Message>, begin: nat, end: nat)
    requires From(rem, end + 1)
    ensures Window(rem, begin, end) == [] && Rest(rem, end) == rem
  {
  }

  // What one window takes from a stream is, time by time, what the whole pass keeps.
  lemma WindowOfSuffix(all: seq<Message>, rem: seq<Message>, b: nat, e: nat, t: nat, begin: nat, end: nat)
    requires Suffix(all, rem, b) && OnGrid(b, begin) && b <= t <= e
    requires e == if b + STEP_TIME > end then end else b + STEP_TIME
    ensures AtTime(Window(rem, b, e), t) == AtTime(Kept(all, 0, begin, end), t)
  {
    var pre := all[..|all| - |rem|];
    assert all == pre + rem;
    WindowIsKept(all, rem, pre, b, e, t, begin, end);
  }

  // ---------------------------------------------------------------------
  // What the windows read, over any files at all

  // Where a reader stands, and whether FillBuffer is done with it.
  datatype Mark = Mark(cursor: Cursor, finished: bool)

  const FRESH := Mark(START, false)

  // The last time of the window that begins at `b`.
  function LastOf(b: nat, end: nat): nat {
    if b + STEP_TIME > end then end else b + STEP_TIME
  }

  // A reader whose file ends before the window is reset and done with.
  function Retire(r: Reader, m: Mark, b: nat): Mark {
    if !m.finished && r.headerEnd < b then Mark(START, true) else m
  }

  // One window of one reader.
  function TurnOf(r: Reader, m: Mark, b: nat, e: nat): (Mark, seq<Message>) {
    var m1 := Retire(r, m, b);
    if m1.finished then (m1, [])
    else
      var (c, got) := r.WindowOf(m1.cursor, b, e);
      (Mark(c, false), got)
  }

  // All windows of one reader, from `b` on.
  function ReadBy(r: Reader, m: Mark, b: nat, end: nat): seq<Message>
    decreases end + 1 - b
  {
    if b > end then []
    else
      var (m', got) := TurnOf(r, m, b, LastOf(b, end));
      got + ReadBy(r, m', LastOf(b, end) + 1, end)
  }

  // What the windows of [begin, end] read of each reader, reader after reader.
  function AllRead(readers: seq<Reader>, begin: nat, end: nat): seq<Message> {
    if readers == [] then []
    else AllRead(readers[..|readers| - 1], begin, end) + ReadBy(readers[|readers| - 1], FRESH, begin, end)
  }

  lemma TurnWithin(r: Reader, m: Mark, b: nat, e: nat)
    ensures Within(TurnOf(r, m, b, e).1, b, e)
  {
    WindowFromInWindow(r.sections, Retire(r, m, b).cursor, b, e);
  }

  lemma {:induction false} ReadByWithin(r: Reader, m: Mark, b: nat, end: nat)
    ensures Within(ReadBy(r, m, b, end), b, end)
    decreases end + 1 - b
  {
    if b <= end {
      TurnWithin(r, m, b, LastOf(b, end));
      ReadByWithin(r, TurnOf(r, m, b, LastOf(b, end)).0, LastOf(b, end) + 1, end);
    }
  }

  lemma {:induction false} AllReadWithin(readers: seq<Reader>, begin: nat, end: nat)
    ensures Within(AllRead(readers, begin, end), begin, end)
  {
    if readers != [] {
      AllReadWithin(readers[..|readers| - 1], begin, end);
      ReadByWithin(readers[|readers| - 1], FRESH, begin, end);
    }
  }

  lemma {:induction false} NothingRead(readers: seq<Reader>, begin: nat, end: nat)
    requires begin > end
    ensures AllRead(readers, begin, end) == []
  {
    if readers != [] { NothingRead(readers[..|readers| - 1], begin, end); }
  }

  // From `b` on, `all` holds what the reader still reads.
  ghost predicate StillReads(r: Reader, all: seq<Message>, m: Mark, b: nat, end: nat) {
    forall t: nat :: t >= b ==> AtTime(all, t) == AtTime(ReadBy(r, m, b, end), t)
  }

  lemma RetireReadsTheSame(r: Reader, m: Mark, b: nat, end: nat)
    ensures ReadBy(r, Retire(r, m, b), b, end) == ReadBy(r, m, b, end)
  {
  }

  // What a window gives lies before what the later ones give.
  lemma EarlierAndLater(got: seq<Message>, later: seq<Message>, b: nat, e: nat, t: nat)
    requires Within(got, b, e) && From(later, e + 1)
    ensures AtTime(got + later, t) == if t <= e then AtTime(got, t) else AtTime(later, t)
  {
    AtTimeConcat(got, later, t);
    if t <= e { AtTimeOutside(later, t); } else { AtTimeOutside(got, t); }
  }

  lemma TurnDone(r: Reader, all: seq<Message>, m: Mark, b: nat, end: nat)
    requires StillReads(r, all, m, b, end) && b <= end
    ensures var (m', got) := TurnOf(r, m, b, LastOf(b, end));
            && StillReads(r, all, m', LastOf(b, end) + 1, end)
            && forall t :: b <= t <= LastOf(b, end) ==> AtTime(got, t) == AtTime(all, t)
  {
    var e := LastOf(b, end);
    var (m', got) := TurnOf(r, m, b, e);
    var later := ReadBy(r, m', e + 1, end);
    TurnWithin(r, m, b, e);
    ReadByWithin(r, m', e + 1, end);
    assert ReadBy(r, m, b, end) == got + later;
    forall t: nat | t >= b
      ensures AtTime(all, t) == if t <= e then AtTime(got, t) else AtTime(later, t)
    {
      EarlierAndLater(got, later, b, e, t);
    }
  }

  // The windows of the first readers, joined.
  lemma ReadSoFar(readers: seq<Reader>, n: nat, got: seq<Message>, more: seq<Message>,
                  b: nat, e: nat, begin: nat, end: nat)
    requires n < |readers|
    requires forall t :: b <= t <= e ==> AtTime(got, t) == AtTime(AllRead(readers[..n], begin, end), t)
    requires forall t :: b <= t <= e ==> AtTime(more, t) == AtTime(ReadBy(readers[n], FRESH, begin, end), t)
    ensures forall t :: b <= t <= e ==>
              AtTime(got + more, t) == AtTime(AllRead(readers[..n + 1], begin, end), t)
  {
    assert readers[..n + 1][..n] == readers[..n];
    forall t | b <= t <= e
      ensures AtTime(got + more, t) == AtTime(AllRead(readers[..n + 1], begin, end), t)
    {
      AtTimeConcat(AllRead(readers[..n], begin, end), ReadBy(readers[n], FRESH, begin, end), t);
      AtTimeConcat(got, more, t);
    }
  }

  // ---------------------------------------------------------------------
  // Over accurate files, that is what the windows keep

  // Nothing that the windows from `b` on need has gone from an accurate reader.
  ghost predicate HasLeft(r: Reader, m: Mark, b: nat) {
    if m.finished then Before(Stream(r), b)
    else r.isValid ==> Suffix(r.All(), RemOf(r.sections, m.cursor), b)
  }

  lemma RetireHasLeft(r: Reader, m: Mark, b: nat)
    requires r.Accurate() && HasLeft(r, m, b)
    ensures HasLeft(r, Retire(r, m, b), b)
  {
    BodiesWithin(r.sections, 0, r.headerBegin, r.headerEnd);
  }

  // One window of one accurate reader that is not done with.
  lemma WindowKept(r: Reader, c: Cursor, b: nat, e: nat, begin: nat, end: nat)
    requires r.Accurate() && r.isValid && Suffix(r.All(), RemOf(r.sections, c), b)
    requires OnGrid(b, begin) && b <= end && b <= r.headerEnd && e == LastOf(b, end)
    ensures var (c', got) := r.WindowOf(c, b, e);
            && Suffix(r.All(), RemOf(r.sections, c'), e + 1)
            && forall t :: b <= t <= e ==> AtTime(got, t) == AtTime(Kept(r.All(), 0, begin, end), t)
  {
    var rem := RemOf(r.sections, c);
    SuffixRest(r.All(), rem, b, e);
    if r.OutOfRange(b, e) {
      BodiesWithin(r.sections, 0, r.headerBegin, r.headerEnd);
      assert From(rem, e + 1) by {
        forall k | 0 <= k < |rem| ensures rem[k].time >= e + 1 {
          assert rem[k] == r.All()[|r.All()| - |rem| + k];
        }
      }
      UntouchedWindow(rem, b, e);
    } else {
      WindowFromMeans(r.sections, c, b, e, r.headerBegin, r.headerEnd);
    }
    forall t | b <= t <= e ensures AtTime(Window(rem, b, e), t) == AtTime(Kept(r.All(), 0, begin, end), t) {
      WindowOfSuffix(r.All(), rem, b, e, t, begin, end);
    }
  }

  lemma TurnKept(r: Reader, m: Mark, b: nat, begin: nat, end: nat)
    requires r.Accurate() && HasLeft(r, m, b) && OnGrid(b, begin) && b <= end
    ensures var (m', got) := TurnOf(r, m, b, LastOf(b, end));
            && HasLeft(r, m', LastOf(b, end) + 1)
            && forall t :: b <= t <= LastOf(b, end) ==> AtTime(got, t) == AtTime(Kept(Stream(r), 0, begin, end), t)
  {
    var e, m1 := LastOf(b, end), Retire(r, m, b);
    RetireHasLeft(r, m, b);
    if m1.finished {
      forall t | b <= t <= e ensures AtTime(Kept(Stream(r), 0, begin, end), t) == [] {
        KeptOnly(Stream(r), 0, t, begin, end);
      }
    } else if r.isValid {
      WindowKept(r, m1.cursor, b, e, begin, end);
    }
  }

  lemma NextOnGrid(b: nat, begin: nat, end: nat)
    requires OnGrid(b, begin) && LastOf(b, end) < end
    ensures OnGrid(LastOf(b, end) + 1, begin)
  {
    var q := (b - begin) / (STEP_TIME + 1);
    assert b - begin == q * (STEP_TIME + 1);
    assert b + STEP_TIME + 1 - begin == (q + 1) * (STEP_TIME + 1);
  }

  lemma {:induction false} ReadByKept(r: Reader, m: Mark, b: nat, begin: nat, end: nat, t: nat)
    requires r.Accurate() && HasLeft(r, m, b) && OnGrid(b, begin) && b <= t <= end
    ensures AtTime(ReadBy(r, m, b, end), t) == AtTime(Kept(Stream(r), 0, begin, end), t)
    decreases end + 1 - b
  {
    var e := LastOf(b, end);
    var (m', got) := TurnOf(r, m, b, e);
    TurnKept(r, m, b, begin, end);
    TurnWithin(r, m, b, e);
    ReadByWithin(r, m', e + 1, end);
    AtTimeConcat(got, ReadBy(r, m', e + 1, end), t);
    if t > e {
      AtTimeOutside(got, t);
      NextOnGrid(b, begin, end);
      ReadByKept(r, m', e + 1, begin, end, t);
    } else {
      AtTimeOutside(ReadBy(r, m', e + 1, end), t);
    }
  }

  lemma {:induction false} AllReadIsKept(readers: seq<Reader>, begin: nat, end: nat, t: nat)
    requires forall i :: 0 <= i < |readers| ==> readers[i].Accurate()
    ensures AtTime(AllRead(readers, begin, end), t) == AtTime(AllKept(Streams(readers), begin, end), t)
  {
    if readers != [] {
      var front, r := readers[..|readers| - 1], readers[|readers| - 1];
      assert Streams(readers)[..|readers| - 1] == Streams(front);
      AllReadIsKept(front, begin, end, t);
      AtTimeConcat(AllRead(front, begin, end), ReadBy(r, FRESH, begin, end), t);
      AtTimeConcat(AllKept(Streams(front), begin, end), Kept(Stream(r), 0, begin, end), t);
      if begin <= t <= end {
        ReadByKept(r, FRESH, begin, begin, end, t);
      } else {
        ReadByWithin(r, FRESH, begin, end);
        AtTimeOutside(ReadBy(r, FRESH, begin, end), t);
        KeptOnly(Stream(r), 0, t, begin, end);
      }
    }
  }

  /** Over accurate files the sort of what is read is the sort of what the windows keep. */
  lemma AccurateFilesAreKept(readers: seq<Reader>, begin: nat, end: nat)
    requires forall i :: 0 <= i < |readers| ==> readers[i].Accurate()
    ensures StableSort(AllRead(readers, begin, end)) == StableSort(AllKept(Streams(readers), begin, end))
  {
    var read, kept := AllRead(readers, begin, end), AllKept(Streams(readers), begin, end);
    StableSortIsStable(read);
    StableSortIsStable(kept);
    forall t: nat ensures AtTime(StableSort(read), t) == AtTime(StableSort(kept), t) {
      AllReadIsKept(readers, begin, end, t);
    }
    StableSortUnique(StableSort(read), StableSort(kept));
  }

  // ---------------------------------------------------------------------
  // The buffer

  // The buffer is sorted, comes after what was popped, and both lie behind `time`.
  ghost predicate Ordered(popped: seq<Message>, buffer: seq<Message>, begin: nat, end: nat, time: nat) {
    && Sorted(popped) && Sorted(buffer)
    && (forall p, m :: p in popped && m in buffer ==> p.time <= m.time)
    && (forall m :: m in popped || m in buffer ==> begin <= m.time <= end && m.time < time)
  }

  // Time by time, the messages popped and buffered are those expected before `time`.
  ghost predicate Complete(popped: seq<Message>, buffer: seq<Message>, expected: seq<Message>, time: nat) {
    forall t: nat :: AtTime(popped, t) + AtTime(buffer, t) == if t < time then AtTime(expected, t) else []
  }

  // A window of new messages is merged into a buffer that lies before it.
  lemma MergeOrdered(popped: seq<Message>, buffer: seq<Message>, got: seq<Message>,
                     begin: nat, end: nat, b: nat, e: nat)
    requires Ordered(popped, buffer, begin, end, b) && Within(got, b, e) && begin <= b <= e <= end
    ensures Ordered(popped, InsertAll(buffer, got), begin, end, e + 1)
    ensures |InsertAll(buffer, got)| == |buffer| + |got|
  {
    InsertAllSorted(buffer, got);
    forall m | m in got ensures b <= m.time <= e {
      var k :| 0 <= k < |got| && got[k] == m;
    }
    var merged := InsertAll(buffer, got);
    forall m | m in merged ensures begin <= m.time <= end && m.time < e + 1 && (m in buffer || b <= m.time) {
      assert m in buffer || m in got;
    }
    forall p | p in popped ensures begin <= p.time <= end && p.time < b {}
  }

  lemma MergeComplete(popped: seq<Message>, buffer: seq<Message>, got: seq<Message>, expected: seq<Message>,
                      b: nat, e: nat)
    requires Sorted(buffer) && Within(got, b, e) && b <= e && Complete(popped, buffer, expected, b)
    requires forall t :: b <= t <= e ==> AtTime(got, t) == AtTime(expected, t)
    ensures Complete(popped, InsertAll(buffer, got), expected, e + 1)
  {
    forall t: nat
      ensures AtTime(popped, t) + AtTime(InsertAll(buffer, got), t) ==
              if t < e + 1 then AtTime(expected, t) else []
    {
      assert AtTime(popped, t) + AtTime(buffer, t) == if t < b then AtTime(expected, t) else [];
      InsertAllAtTime(buffer, got, t);
      if t < b || t > e { AtTimeOutside(got, t); }
    }
  }

  // The first message of the buffer is popped.
  lemma PopOrdered(popped: seq<Message>, buffer: seq<Message>, begin: nat, end: nat, time: nat)
    requires buffer != [] && Ordered(popped, buffer, begin, end, time)
    ensures Ordered(popped + [buffer[0]], buffer[1..], begin, end, time)
  {
    assert buffer[0] in buffer;
    assert forall m :: m in buffer[1..] ==> m in buffer;
  }

  // Taking the first message from one end and adding it at the other changes no time.
  lemma PopAtTime(popped: seq<Message>, buffer: seq<Message>, t: nat)
    requires buffer != []
    ensures AtTime(popped + [buffer[0]], t) + AtTime(buffer[1..], t) == AtTime(popped, t) + AtTime(buffer, t)
  {
    var first, rest := [buffer[0]], buffer[1..];
    AtTimeConcat(popped, first, t);
    AtTimeConcat(first, rest, t);
    assert first + rest == buffer;
    Reassociate(AtTime(popped, t), AtTime(first, t), AtTime(rest, t));
  }

  lemma Reassociate(a: seq<Message>, b: seq<Message>, c: seq<Message>)
    ensures (a + b) + c == a + (b + c)
  {
  }

  lemma PopComplete(popped: seq<Message>, buffer: seq<Message>, expected: seq<Message>, time: nat)
    requires buffer != [] && Complete(popped, buffer, expected, time)
    ensures Complete(popped + [buffer[0]], buffer[1..], expected, time)
  {
    forall t: nat
      ensures AtTime(popped + [buffer[0]], t) + AtTime(buffer[1..], t) ==
              if t < time then AtTime(expected, t) else []
    {
      PopAtTime(popped, buffer, t);
    }
  }

  function MinBegin(readers: seq<Reader>): nat {
    if readers == [] then TIME_MAX
    else
      var rest, r := MinBegin(readers[..|readers| - 1]), readers[|readers| - 1];
      if r.isValid && rest > r.headerBegin then r.headerBegin else rest
  }

  function MaxEnd(readers: seq<Reader>): nat {
    if readers == [] then 0
    else
      var rest, r := MaxEnd(readers[..|readers| - 1]), readers[|readers| - 1];
      if r.isValid && rest < r.headerEnd then r.headerEnd else rest
  }

  // From position `n` on, nothing of the channels asked for.
  ghost predicate Unwanted(s: seq<Message>, n: nat, channels: set<string>) {
    forall k: nat {:trigger s[k]} :: n <= k < |s| ==> channels != {} && s[k].channel !in channels
  }

  // What one Update adds to the selection.
  lemma SelectedMore(before: seq<Message>, popped: seq<Message>, message: Option<Message>, channels: set<string>)
    requires before <= popped
    requires if message.Some?
             then |before| < |popped| && popped[|popped| - 1] == message.value
                  && (channels == {} || message.value.channel in channels)
                  && Unwanted(popped[..|popped| - 1], |before|, channels)
             else Unwanted(popped, |before|, channels)
    ensures Select(popped, channels) ==
            Select(before, channels) + if message.Some? then [message.value] else []
  {
    if message.Some? {
      UnwantedAdd(popped[..|popped| - 1], before, channels);
    } else {
      UnwantedAdd(popped, before, channels);
    }
  }

  lemma {:induction false} UnwantedAdd(s: seq<Message>, before: seq<Message>, channels: set<string>)
    requires before <= s && Unwanted(s, |before|, channels)
    ensures Select(s, channels) == Select(before, channels)
    decreases |s|
  {
    if |before| < |s| {
      var last := |s| - 1;
      assert s[last].channel !in channels && channels != {};
      UnwantedAdd(s[..last], before, channels);
    } else {
      assert s == before;
    }
  }

  class Viewer {
    const readers: seq<Reader>
    const channels: set<string>
    var beginTime: nat
    var endTime: nat
    var currBeginTime: nat
    var msgBuffer: seq<Message>
    var readersFinished: seq<bool>
    ghost var popped: seq<Message>   // everything taken from the buffer since Reset

    ghost predicate Accurate() {
      forall i :: 0 <= i < |readers| ==> readers[i].Accurate()
    }

    ghost predicate Shape()
      reads `readersFinished
    {
      && |readersFinished| == |readers|
      && (forall i, j :: 0 <= i < j < |readers| ==> readers[i] != readers[j])
    }

    ghost function MarkOf(i: nat): Mark
      requires i < |readers| == |readersFinished|
      reads `readersFinished, readers[i]
    {
      Mark(readers[i].View(), readersFinished[i])
    }

    // From `time` on, reader `i` still reads what it would have read from the start.
    ghost predicate Progress(i: nat, time: nat)
      requires i < |readers| == |readersFinished|
      reads `readersFinished, `beginTime, `endTime, readers[i]
    {
      StillReads(readers[i], ReadBy(readers[i], FRESH, beginTime, endTime), MarkOf(i), time, endTime)
    }

    // The innermost loop of FillBuffer: one window of one reader.
    method ReadWindow(i: nat, thisBeginTime: nat, thisEndTime: nat) returns (ghost got: seq<Message>)
      requires i < |readers|
      modifies this`msgBuffer, readers[i]
      ensures msgBuffer == InsertAll(old(msgBuffer), got)
      ensures (readers[i].View(), got) == readers[i].WindowOf(old(readers[i].View()), thisBeginTime, thisEndTime)
    {
      var reader := readers[i];
      ghost var all := reader.WindowOf(reader.View(), thisBeginTime, thisEndTime);
      got := [];
      while true
        invariant msgBuffer == InsertAll(old(msgBuffer), got)
        invariant all.0 == reader.WindowOf(reader.View(), thisBeginTime, thisEndTime).0
        invariant all.1 == got + reader.WindowOf(reader.View(), thisBeginTime, thisEndTime).1
        decreases |reader.sections| - reader.pos, |reader.chunk| - reader.messageIndex
      {
        ghost var before := reader.View();
        var message := reader.ReadMessage(thisBeginTime, thisEndTime);
        reader.WindowOfStep(before, reader.View(), message, thisBeginTime, thisEndTime);
        if message == None {
          assert got + [] == got;
          break;
        }
        msgBuffer := Insert(msgBuffer, message.value);
        PassOver(got, [message.value], reader.WindowOf(reader.View(), thisBeginTime, thisEndTime).1, thisEndTime);
        assert (got + [message.value])[..|got|] == got;
        got := got + [message.value];
      }
    }

    /** What the windows read: it depends on the files and the range alone. */
    function Expected(): seq<Message>
      reads `beginTime, `endTime
    {
      AllRead(readers, beginTime, endTime)
    }

    ghost predicate AllProgress(time: nat)
      requires |readers| == |readersFinished|
      reads `readersFinished, `beginTime, `endTime, readers
    {
      forall i: nat :: i < |readers| ==> Progress(i, time)
    }

    // The loop that marks the readers whose files end before the window.
    method MarkFinished(thisBeginTime: nat)
      requires Shape()
      modifies this`readersFinished, readers
      ensures Shape()
      ensures forall i :: 0 <= i < |readers| && !readersFinished[i] ==> thisBeginTime <= readers[i].headerEnd
      ensures old(AllProgress(thisBeginTime)) ==> AllProgress(thisBeginTime)
    {
      for n := 0 to |readers|
        invariant Shape()
        invariant forall i :: 0 <= i < n && !readersFinished[i] ==> thisBeginTime <= readers[i].headerEnd
        invariant old(AllProgress(thisBeginTime)) ==> AllProgress(thisBeginTime)
      {
        if !readersFinished[n] && readers[n].headerEnd < thisBeginTime {
          ghost var held := AllProgress(thisBeginTime);
          RetireReadsTheSame(readers[n], MarkOf(n), thisBeginTime, endTime);
          label before:
          readersFinished := readersFinished[n := true];
          readers[n].Reset();
          if held {
            forall i: nat | i < |readers| ensures Progress(i, thisBeginTime) {
              assert old@before(Progress(i, thisBeginTime));
              if i != n {
                assert readers[i] != readers[n];
              }
            }
          }
        }
      }
    }

    // One turn of the loop over the readers: a finished reader is passed over.
    method ReadOne(i: nat, b: nat, e: nat) returns (ghost got: seq<Message>)
      requires i < |readers| == |readersFinished| && b <= endTime && e == LastOf(b, endTime)
      requires !readersFinished[i] ==> b <= readers[i].headerEnd
      modifies this`msgBuffer, readers[i]
      ensures msgBuffer == InsertAll(old(msgBuffer), got) && Within(got, b, e)
      ensures old(Progress(i, b)) ==>
                && Progress(i, e + 1)
                && forall t :: b <= t <= e ==>
                     AtTime(got, t) == AtTime(ReadBy(readers[i], FRESH, beginTime, endTime), t)
    {
      ghost var m := MarkOf(i);
      TurnWithin(readers[i], m, b, e);
      if Progress(i, b) {
        TurnDone(readers[i], ReadBy(readers[i], FRESH, beginTime, endTime), m, b, endTime);
      }
      if readersFinished[i] {
        got := [];
        return;
      }
      got := ReadWindow(i, b, e);
    }

    // The first `n` readers have been read up to `after`, the others only up to `before`.
    ghost predicate HalfWay(n: nat, before: nat, after: nat)
      requires |readers| == |readersFinished|
      reads `readersFinished, `beginTime, `endTime, readers
    {
      && (forall i: nat :: i < n && i < |readers| ==> Progress(i, after))
      && (forall i: nat :: n <= i < |readers| ==> Progress(i, before))
    }

    // The same turn seen by all readers: the others do not move.
    method ReadTurn(n: nat, b: nat, e: nat, ghost next: nat) returns (ghost got: seq<Message>)
      requires Shape() && n < |readers| && b <= endTime && e == LastOf(b, endTime) && next == e + 1
      requires !readersFinished[n] ==> b <= readers[n].headerEnd
      modifies this`msgBuffer, readers[n]
      ensures msgBuffer == InsertAll(old(msgBuffer), got) && Within(got, b, e)
      ensures old(HalfWay(n, b, next)) ==>
                && HalfWay(n + 1, b, next)
                && forall t :: b <= t <= e ==>
                     AtTime(got, t) == AtTime(ReadBy(readers[n], FRESH, beginTime, endTime), t)
    {
      got := ReadOne(n, b, e);
      if old(HalfWay(n, b, next)) {
        assert old(Progress(n, b));
        forall i: nat | i < n ensures Progress(i, next) {
          assert readers[i] != readers[n] && old(Progress(i, next));
        }
        forall i: nat | n < i < |readers| ensures Progress(i, b) {
          assert readers[i] != readers[n] && old(Progress(i, b));
        }
      }
    }

    // The loop over the readers: one window of each.
    method ReadWindows(thisBeginTime: nat, thisEndTime: nat) returns (ghost got: seq<Message>)
      requires Shape() && thisBeginTime <= endTime && thisEndTime == LastOf(thisBeginTime, endTime)
      requires forall i :: 0 <= i < |readers| && !readersFinished[i] ==> thisBeginTime <= readers[i].headerEnd
      modifies this`msgBuffer, readers
      ensures msgBuffer == InsertAll(old(msgBuffer), got) && Within(got, thisBeginTime, thisEndTime)
      ensures old(AllProgress(thisBeginTime)) ==>
                && AllProgress(thisEndTime + 1)
                && forall t :: thisBeginTime <= t <= thisEndTime ==> AtTime(got, t) == AtTime(Expected(), t)
    {
      got := [];
      ghost var exact, next := AllProgress(thisBeginTime), thisEndTime + 1;
      for n := 0 to |readers|
        invariant Shape()
        invariant msgBuffer == InsertAll(old(msgBuffer), got) && Within(got, thisBeginTime, thisEndTime)
        invariant exact ==> HalfWay(n, thisBeginTime, next)
        invariant exact ==> forall t :: thisBeginTime <= t <= thisEndTime ==>
                              AtTime(got, t) == AtTime(AllRead(readers[..n], beginTime, endTime), t)
      {
        ghost var more := ReadTurn(n, thisBeginTime, thisEndTime, next);
        InsertAllConcat(old(msgBuffer), got, more);
        if exact {
          ReadSoFar(readers, n, got, more, thisBeginTime, thisEndTime, beginTime, endTime);
        }
        got := got + more;
      }
      assert readers[..|readers|] == readers;
    }

    ghost predicate InOrder()
      reads this
    {
      Ordered(popped, msgBuffer, beginTime, endTime, currBeginTime)
    }

    // Nothing is lost so far, in the readers or in the output.
    ghost predicate Exact()
      requires |readers| == |readersFinished|
      reads this, readers
    {
      AllProgress(currBeginTime) && Complete(popped, msgBuffer, Expected(), currBeginTime)
    }

    // The two loops over the readers.
    method ReadAll(thisBeginTime: nat, thisEndTime: nat) returns (ghost got: seq<Message>)
      requires Shape() && thisBeginTime <= endTime && thisEndTime == LastOf(thisBeginTime, endTime)
      modifies this`msgBuffer, this`readersFinished, readers
      ensures Shape()
      ensures msgBuffer == InsertAll(old(msgBuffer), got) && Within(got, thisBeginTime, thisEndTime)
      ensures old(AllProgress(thisBeginTime)) ==>
                && AllProgress(thisEndTime + 1)
                && forall t :: thisBeginTime <= t <= thisEndTime ==> AtTime(got, t) == AtTime(Expected(), t)
    {
      MarkFinished(thisBeginTime);
      got := ReadWindows(thisBeginTime, thisEndTime);
    }

    // The two loops, and the step to the next window.
    method PassWindow(thisEndTime: nat) returns (ghost got: seq<Message>)
      requires Shape() && currBeginTime <= endTime && thisEndTime == LastOf(currBeginTime, endTime)
      modifies this`msgBuffer, this`currBeginTime, this`readersFinished, readers
      ensures Shape() && currBeginTime == thisEndTime + 1
      ensures msgBuffer == InsertAll(old(msgBuffer), got) && Within(got, old(currBeginTime), thisEndTime)
      ensures old(AllProgress(currBeginTime)) ==>
                && AllProgress(currBeginTime)
                && forall t :: old(currBeginTime) <= t <= thisEndTime ==> AtTime(got, t) == AtTime(Expected(), t)
    {
      got := ReadAll(currBeginTime, thisEndTime);
      currBeginTime := thisEndTime + 1;
    }

    // One turn of the outer loop of FillBuffer.
    method FillWindow()
      requires Shape() && InOrder() && beginTime <= currBeginTime <= endTime
      modifies this`msgBuffer, this`currBeginTime, this`readersFinished, readers
      ensures Shape() && InOrder() && old(currBeginTime) < currBeginTime <= endTime + 1
      ensures old(Exact()) ==> Exact()
    {
      var thisEndTime := currBeginTime + STEP_TIME;
      if thisEndTime > endTime {
        thisEndTime := endTime;
      }
      ghost var got := PassWindow(thisEndTime);
      MergeOrdered(popped, old(msgBuffer), got, beginTime, endTime, old(currBeginTime), thisEndTime);
      if old(Exact()) {
        MergeComplete(popped, old(msgBuffer), got, Expected(), old(currBeginTime), thisEndTime);
      }
    }

    method FillBuffer() returns (filled: bool)
      requires Shape() && InOrder() && beginTime <= currBeginTime
      modifies this`msgBuffer, this`currBeginTime, this`readersFinished, readers
      ensures Shape() && InOrder() && old(currBeginTime) <= currBeginTime
      ensures filled == (msgBuffer != []) && (!filled ==> currBeginTime > endTime)
      ensures currBeginTime <= endTime ==> |msgBuffer| >= 128
      ensures if old(currBeginTime) == currBeginTime then msgBuffer == old(msgBuffer) else currBeginTime <= endTime + 1
      ensures old(Exact()) ==> Exact()
    {
      while currBeginTime <= endTime && |msgBuffer| < BUFFER_MIN_SIZE
        invariant Shape() && InOrder() && old(currBeginTime) <= currBeginTime
        invariant if old(currBeginTime) == currBeginTime then msgBuffer == old(msgBuffer) else currBeginTime <= endTime + 1
        invariant old(Exact()) ==> Exact()
        decreases endTime + 1 - currBeginTime
      {
        FillWindow();
      }
      return msgBuffer != [];
    }

    // Takes the first message out of the buffer.
    method PopFront() returns (msg: Message)
      requires Shape() && InOrder() && msgBuffer != []
      modifies this`msgBuffer, this`popped
      ensures Shape() && InOrder() && msg == old(msgBuffer)[0] && msgBuffer == old(msgBuffer)[1..]
      ensures popped == old(popped) + [msg]
      ensures old(Exact()) ==> Exact()
    {
      msg := msgBuffer[0];
      PopOrdered(popped, msgBuffer, beginTime, endTime, currBeginTime);
      if Exact() {
        PopComplete(popped, msgBuffer, Expected(), currBeginTime);
      }
      popped := popped + [msg];
      msgBuffer := msgBuffer[1..];
    }

    /** The next message of a channel asked for, of any channel if none is named, or none
        once the windows and the buffer are used up. What is passed over on the way is
        of other channels. */
    method Update() returns (message: Option<Message>)
      requires Shape() && InOrder() && beginTime <= currBeginTime
      modifies this`msgBuffer, this`currBeginTime, this`readersFinished, this`popped, readers
      ensures Shape() && InOrder() && old(currBeginTime) <= currBeginTime
      ensures old(currBeginTime) < currBeginTime ==> currBeginTime <= endTime + 1
      ensures old(popped) <= popped
      ensures if message.Some?
              then |old(popped)| < |popped| && popped[|popped| - 1] == message.value
                   && (channels == {} || message.value.channel in channels)
                   && Unwanted(popped[..|popped| - 1], |old(popped)|, channels)
              else Unwanted(popped, |old(popped)|, channels)
      ensures message == None ==> msgBuffer == [] && currBeginTime > endTime
      ensures message.Some? && currBeginTime == old(currBeginTime) ==> |msgBuffer| < |old(msgBuffer)|
      ensures old(Exact()) ==> Exact()
    {
      while true
        invariant Shape() && InOrder() && beginTime <= currBeginTime && old(currBeginTime) <= currBeginTime
        invariant old(currBeginTime) < currBeginTime ==> currBeginTime <= endTime + 1
        invariant currBeginTime == old(currBeginTime) ==> |msgBuffer| <= |old(msgBuffer)|
        invariant old(popped) <= popped && Unwanted(popped, |old(popped)|, channels)
        invariant old(Exact()) ==> Exact()
        decreases endTime + 1 - currBeginTime, |msgBuffer|
      {
        if msgBuffer == [] {
          var filled := FillBuffer();
          if !filled {
            return None;
          }
        }
        var msg := PopFront();
        if Wanted(msg, channels) {
          return Some(msg);
        }
      }
    }

    // The iterator's operator++, and what it adds to the selection.
    method Advance() returns (message: Option<Message>)
      requires Shape() && InOrder() && beginTime <= currBeginTime
      modifies this`msgBuffer, this`currBeginTime, this`readersFinished, this`popped, readers
      ensures Shape() && InOrder() && old(currBeginTime) <= currBeginTime
      ensures old(currBeginTime) < currBeginTime ==> currBeginTime <= endTime + 1
      ensures Select(popped, channels) ==
              Select(old(popped), channels) + if message.Some? then [message.value] else []
      ensures message == None ==> msgBuffer == [] && currBeginTime > endTime
      ensures message.Some? && currBeginTime == old(currBeginTime) ==> |msgBuffer| < |old(msgBuffer)|
      ensures old(Exact()) ==> Exact()
    {
      message := Update();
      SelectedMore(old(popped), popped, message, channels);
    }

    // The loop over the readers in Reset.
    method ResetReaders()
      requires forall i, j :: 0 <= i < j < |readers| ==> readers[i] != readers[j]
      modifies readers
      ensures forall i :: 0 <= i < |readers| ==> readers[i].View() == START
    {
      for n := 0 to |readers|
        invariant forall i :: 0 <= i < n ==> readers[i].View() == START
      {
        readers[n].Reset();
        assert forall i :: 0 <= i < n ==> readers[i] != readers[n];
      }
    }

    // Nothing is popped or buffered, and no reader has begun.
    lemma FreshIsExact()
      requires |readers| == |readersFinished| && popped == [] && msgBuffer == [] && currBeginTime == beginTime
      requires forall i: nat :: i < |readers| ==> MarkOf(i) == FRESH
      ensures Exact() && InOrder()
    {
      AllReadWithin(readers, beginTime, endTime);
      forall t: nat | t < beginTime ensures AtTime(Expected(), t) == [] {
        AtTimeOutside(Expected(), t);
      }
    }

    method Reset()
      requires |readersFinished| == |readers|
      requires forall i, j :: 0 <= i < j < |readers| ==> readers[i] != readers[j]
      modifies this`msgBuffer, this`currBeginTime, this`readersFinished, this`popped, readers
      ensures Shape() && InOrder() && popped == [] && currBeginTime == beginTime && Exact()
    {
      ResetReaders();
      readersFinished := seq(|readers|, _ => false);
      currBeginTime := beginTime;
      msgBuffer := [];
      popped := [];
      FreshIsExact();
    }

    method UpdateTime()
      modifies this`beginTime, this`endTime, this`currBeginTime
      ensures beginTime == if old(beginTime) < MinBegin(readers) then MinBegin(readers) else old(beginTime)
      ensures endTime == if old(endTime) > MaxEnd(readers) then MaxEnd(readers) else old(endTime)
      ensures currBeginTime == beginTime
    {
      var minBeginTime, maxEndTime := TIME_MAX, 0;
      for n := 0 to |readers|
        invariant minBeginTime == MinBegin(readers[..n]) && maxEndTime == MaxEnd(readers[..n])
      {
        assert readers[..n + 1][..n] == readers[..n];
        var reader := readers[n];
        if !reader.isValid {
          continue;
        }
        if minBeginTime > reader.headerBegin {
          minBeginTime := reader.headerBegin;
        }
        if maxEndTime < reader.headerEnd {
          maxEndTime := reader.headerEnd;
        }
      }
      assert readers[..|readers|] == readers;
      if beginTime < minBeginTime {
        beginTime := minBeginTime;
      }
      if endTime > maxEndTime {
        endTime := maxEndTime;
      }
      currBeginTime := beginTime;
    }

    constructor (readers: seq<Reader>, beginTime: nat, endTime: nat, channels: set<string>)
      ensures this.readers == readers && this.channels == channels && |readersFinished| == |readers|
      ensures this.beginTime == if beginTime < MinBegin(readers) then MinBegin(readers) else beginTime
      ensures this.endTime == if endTime > MaxEnd(readers) then MaxEnd(readers) else endTime
      ensures currBeginTime == this.beginTime
    {
      this.readers, this.channels := readers, channels;
      this.beginTime, this.endTime, currBeginTime := beginTime, endTime, 0;
      msgBuffer, popped := [], [];
      readersFinished := seq(|readers|, _ => false);
      new;
      UpdateTime();
    }

    predicate IsValid()
      reads `beginTime, `endTime
    {
      beginTime <= endTime
    }

    // The iterator's constructor.
    method Begin() returns (message: Option<Message>)
      requires |readersFinished| == |readers|
      requires forall i, j :: 0 <= i < j < |readers| ==> readers[i] != readers[j]
      modifies this`msgBuffer, this`currBeginTime, this`readersFinished, this`popped, readers
      ensures Shape() && InOrder() && beginTime <= currBeginTime
      ensures Select(popped, channels) == if message.Some? then [message.value] else []
      ensures message.Some? ==> beginTime <= endTime && currBeginTime <= endTime + 1
      ensures message == None ==> if beginTime > endTime then popped == [] else msgBuffer == [] && currBeginTime > endTime
      ensures Exact()
    {
      Reset();
      if !IsValid() {
        return None;
      }
      message := Advance();
    }

    /** Iterating from begin() to end(): whatever was read before, and whatever the
        files are, the output is the stable sort of what the windows read of each
        reader, in reader order, with all messages of the channels asked for, and of
        every channel if none is named. It is in time order and in range, and a fresh
        begin() gives the same again. If the files are accurate, what the windows read
        is what they keep. */
    method Iterate() returns (out: seq<Message>)
      requires |readersFinished| == |readers|
      requires forall i, j :: 0 <= i < j < |readers| ==> readers[i] != readers[j]
      modifies this`msgBuffer, this`currBeginTime, this`readersFinished, this`popped, readers
      ensures Sorted(out)
      ensures forall m :: m in out ==> beginTime <= m.time <= endTime && (channels == {} || m.channel in channels)
      ensures out == Select(StableSort(Expected()), channels)
      ensures channels == {} ==> out == StableSort(Expected())
      ensures forall c: string :: OnChannel(out, c) ==
                if channels == {} || c in channels then OnChannel(StableSort(Expected()), c) else []
      ensures Accurate() ==>
                StableSort(Expected()) == StableSort(AllKept(Streams(readers), beginTime, endTime))
    {
      out := [];
      var message := Begin();
      while message.Some?
        invariant Shape() && InOrder() && beginTime <= currBeginTime
        invariant message.Some? ==> currBeginTime <= endTime + 1
        invariant Select(popped, channels) == out + if message.Some? then [message.value] else []
        invariant message.Some? ==> beginTime <= endTime
        invariant message == None ==>
                    if beginTime > endTime then popped == [] else msgBuffer == [] && currBeginTime > endTime
        invariant Exact()
        decreases endTime + 1 - currBeginTime, |msgBuffer|, if message.Some? then 1 else 0
      {
        out := out + [message.value];
        message := Advance();
      }
      assert out == Select(popped, channels);
      IterationEnds();
    }

    // What the selection of everything popped is, once nothing is left.
    lemma IterationEnds()
      requires |readers| == |readersFinished| && InOrder() && Exact()
      requires if beginTime > endTime then popped == [] else msgBuffer == [] && currBeginTime > endTime
      ensures Sorted(Select(popped, channels))
      ensures forall m :: m in Select(popped, channels) ==>
                beginTime <= m.time <= endTime && (channels == {} || m.channel in channels)
      ensures popped == StableSort(Expected())
      ensures channels == {} ==> Select(popped, channels) == popped
      ensures forall c: string :: OnChannel(Select(popped, channels), c) ==
                if channels == {} || c in channels then OnChannel(popped, c) else []
      ensures Accurate() ==> popped == StableSort(AllKept(Streams(readers), beginTime, endTime))
    {
      SelectSorted(popped, channels);
      forall c: string { SelectedChannels(popped, channels, c); }
      SelectedChannels(popped, channels, "");
      AllPopped();
      if Accurate() {
        AccurateFilesAreKept(readers, beginTime, endTime);
      }
    }

    // At the end what was popped is the sort of what had to be kept.
    lemma AllPopped()
      requires |readers| == |readersFinished| && InOrder() && Exact()
      requires if beginTime > endTime then popped == [] else msgBuffer == [] && currBeginTime > endTime
      ensures popped == StableSort(Expected())
    {
      var expected := Expected();
      AllReadWithin(readers, beginTime, endTime);
      if beginTime > endTime {
        NothingRead(readers, beginTime, endTime);
        return;
      }
      StableSortIsStable(expected);
      forall t: nat ensures AtTime(popped, t) == AtTime(StableSort(expected), t) {
        assert AtTime(popped, t) + AtTime(msgBuffer, t) == if t < currBeginTime then AtTime(expected, t) else [];
        if t >= currBeginTime { AtTimeOutside(expected, t); }
      }
      StableSortUnique(popped, StableSort(expected));
    }
  }

  /** The range ends at the first and the last time of some files that did open, */
  lemma {:induction false} BoundsAreReached(readers: seq<Reader>) returns (first: nat, last: nat)
    ensures MinBegin(readers) == 0xFFFF_FFFF_FFFF_FFFF ||
              (first < |readers| && readers[first].isValid && readers[first].headerBegin == MinBegin(readers))
    ensures MaxEnd(readers) == 0 ||
              (last < |readers| && readers[last].isValid && readers[last].headerEnd == MaxEnd(readers))
  {
    first, last := 0, 0;
    if readers != [] {
      first, last := BoundsAreReached(readers[..|readers| - 1]);
      var r := readers[|readers| - 1];
      if r.isValid && r.headerBegin == MinBegin(readers) { first := |readers| - 1; }
      if r.isValid && r.headerEnd == MaxEnd(readers) { last := |readers| - 1; }
    }
  }

  /** and no file that did open exceeds them. */
  lemma {:induction false} HeaderBounds(readers: seq<Reader>, i: nat)
    requires i < |readers| && readers[i].isValid
    ensures MinBegin(readers) <= readers[i].headerBegin && readers[i].headerEnd <= MaxEnd(readers)
  {
    if i < |readers| - 1 { HeaderBounds(readers[..|readers| - 1], i); }
  }

  lemma {:induction false} SameInRange(streams: seq<seq<Message>>, begin: nat, end: nat, begin': nat, end': nat)
    requires forall i :: 0 <= i < |streams| ==> InRange(streams[i], begin, end) == InRange(streams[i], begin', end')
    ensures AllInRange(streams, begin, end) == AllInRange(streams, begin', end')
  {
    if streams != [] { SameInRange(streams[..|streams| - 1], begin, end, begin', end'); }
  }

  /** For accurate files in time order, or only ordered by window, iterating yields
      the stable sort of every message in the range the user asked for, all of each
      channel asked for. `out` is what Iterate returns. */
  lemma OrderedFilesLoseNothing(viewer: Viewer, userBegin: nat, userEnd: nat, out: seq<Message>)
    requires viewer.Accurate() && userBegin <= 0xFFFF_FFFF_FFFF_FFFF
    requires viewer.beginTime == if userBegin < MinBegin(viewer.readers) then MinBegin(viewer.readers) else userBegin
    requires viewer.endTime == if userEnd > MaxEnd(viewer.readers) then MaxEnd(viewer.readers) else userEnd
    requires forall i :: 0 <= i < |viewer.readers| ==>
               || Sorted(Stream(viewer.readers[i]))
               || WindowOrdered(Stream(viewer.readers[i]), 0, viewer.beginTime, viewer.endTime)
    requires viewer.channels == {} ==> out == StableSort(viewer.Expected())
    requires forall c: string :: OnChannel(out, c) ==
               if viewer.channels == {} || c in viewer.channels
               then OnChannel(StableSort(viewer.Expected()), c) else []
    ensures var all := StableSort(AllInRange(Streams(viewer.readers), userBegin, userEnd));
            && StableSort(viewer.Expected()) == all
            && (viewer.channels == {} ==> out == all)
            && forall c: string :: OnChannel(out, c) ==
                 if viewer.channels == {} || c in viewer.channels then OnChannel(all, c) else []
  {
    var streams, begin, end := Streams(viewer.readers), viewer.beginTime, viewer.endTime;
    forall i | 0 <= i < |streams|
      ensures WindowOrdered(streams[i], 0, begin, end)
      ensures InRange(streams[i], begin, end) == InRange(streams[i], userBegin, userEnd)
    {
      var r := viewer.readers[i];
      if Sorted(streams[i]) { SortedIsWindowOrdered(streams[i], 0, begin, end); }
      if r.isValid {
        HeaderBounds(viewer.readers, i);
        BodiesWithin(r.sections, 0, r.headerBegin, r.headerEnd);
        ClippedRange(streams[i], begin, end, userBegin, userEnd);
      }
    }
    AllKeptIsAll(streams, begin, end);
    SameInRange(streams, begin, end, userBegin, userEnd);
    AccurateFilesAreKept(viewer.readers, begin, end);
  }
}
