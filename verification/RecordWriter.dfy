/** The chunk writer of cyber/record/file/record_file_writer.{h,cc}, and the round trip
    through it and the reader. A full chunk is written by a task of its own; while that
    task runs, the next chunk that is full is thrown away. */
module RecordWriter {
  import opened Options
  import opened RecordSpec
  import opened RecordReader

  // ---------------------------------------------------------------------
  // A chunk

  datatype Chunk = Chunk(begin: nat, end: nat, rawSize: nat, messages: seq<Message>)

  const EMPTY := Chunk(0, 0, 0, [])

  // Chunk::add. A begin of 0 counts as not set.
  function Add(c: Chunk, m: Message): Chunk {
    var begin := if c.begin == 0 then m.time else c.begin;
    Chunk(if begin > m.time then m.time else begin,
          if c.end < m.time then m.time else c.end,
          c.rawSize + |m.content|,
          c.messages + [m])
  }

  function Built(messages: seq<Message>): Chunk {
    if messages == [] then EMPTY
    else Add(Built(messages[..|messages| - 1]), messages[|messages| - 1])
  }

  lemma BuiltAdd(messages: seq<Message>, m: Message)
    ensures Built(messages + [m]) == Add(Built(messages), m)
  {
    assert (messages + [m])[..|messages|] == messages;
  }

  // How long the contents are, all together.
  function Contents(messages: seq<Message>): nat {
    if messages == [] then 0 else |messages[0].content| + Contents(messages[1..])
  }

  lemma {:induction false} ContentsConcat(a: seq<Message>, b: seq<Message>)
    ensures Contents(a + b) == Contents(a) + Contents(b)
  {
    if a == [] {
      assert a + b == b;
    } else {
      assert (a + b)[1..] == a[1..] + b;
      ContentsConcat(a[1..], b);
    }
  }

  lemma {:induction false} BuiltSize(messages: seq<Message>)
    ensures Built(messages).rawSize == Contents(messages)
  {
    if messages != [] {
      var front, last := messages[..|messages| - 1], messages[|messages| - 1];
      BuiltSize(front);
      assert messages == front + [last];
      ContentsConcat(front, [last]);
    }
  }

  ghost predicate Positive(messages: seq<Message>) {
    forall i :: 0 <= i < |messages| ==> messages[i].time > 0
  }

  // What the times of a chunk header are.
  lemma {:induction false} BuiltMeans(messages: seq<Message>)
    requires messages != []
    ensures var (c, last) := (Built(messages), messages[|messages| - 1]);
            && c.messages == messages
            && (forall i :: 0 <= i < |messages| ==> messages[i].time <= c.end)
            && (exists i :: 0 <= i < |messages| && messages[i].time == c.end)
            && (exists i :: 0 <= i < |messages| && messages[i].time == c.begin)
            && (c.begin == 0 <==> last.time == 0)
            && c.begin <= last.time
            && (Positive(messages) ==> forall i :: 0 <= i < |messages| ==> c.begin <= messages[i].time)
  {
    var front, last := messages[..|messages| - 1], messages[|messages| - 1];
    assert messages == front + [last] && messages[|front|] == last;
    if front != [] {
      BuiltMeans(front);
      assert forall i :: 0 <= i < |front| ==> messages[i] == front[i];
    }
  }

  lemma SpansExactly(messages: seq<Message>, begin: nat, end: nat)
    requires messages != [] && (begin == 0 <==> messages[|messages| - 1].time == 0)
    requires forall i :: 0 <= i < |messages| ==> messages[i].time <= end
    requires Positive(messages) ==> forall i :: 0 <= i < |messages| ==> begin <= messages[i].time
    ensures Within(messages, begin, end) <==> messages[|messages| - 1].time == 0 || Positive(messages)
  {
  }

  /** A chunk header bounds the times of its messages if and only if the last of them has
      time 0 or none has: a time of 0 that is followed by a later one is forgotten. */
  lemma HeaderSpans(messages: seq<Message>)
    requires messages != []
    ensures Within(messages, Built(messages).begin, Built(messages).end) <==>
            messages[|messages| - 1].time == 0 || Positive(messages)
  {
    BuiltMeans(messages);
    SpansExactly(messages, Built(messages).begin, Built(messages).end);
  }

  // A chunk is not written if and only if every message in it has time 0.
  lemma NeverWritten(messages: seq<Message>)
    ensures Built(messages).end == 0 <==> forall i :: 0 <= i < |messages| ==> messages[i].time == 0
  {
    if messages != [] { BuiltMeans(messages); }
  }

  // A message of time 0 is outside the times of the header of its own chunk.
  lemma ZeroTimeForgotten(channel: string, content: string)
    ensures var c := Built([Message(0, channel, content), Message(5, channel, content)]);
            c.begin == 5 && c.end == 5
  {
    var zero, later := Message(0, channel, content), Message(5, channel, content);
    BuiltAdd([zero], later);
    BuiltAdd([], zero);
    assert [] + [zero] == [zero] && [zero] + [later] == [zero, later];
  }

  // ---------------------------------------------------------------------
  // The file

  function Concat(chunks: seq<seq<Message>>): seq<Message> {
    if chunks == [] then [] else Concat(chunks[..|chunks| - 1]) + chunks[|chunks| - 1]
  }

  // The sections of a file that is still open: channels, and chunks with their headers.
  ghost predicate WrittenAs(sections: seq<Section>, chunks: seq<seq<Message>>) {
    if sections == [] then chunks == []
    else
      var n := |sections| - 1;
      match sections[n]
      case Channel => WrittenAs(sections[..n], chunks)
      case ChunkBody(messages) =>
        && n > 0 && chunks != [] && chunks[|chunks| - 1] == messages && Built(messages).end > 0
        && sections[n - 1] == ChunkHeader(Built(messages).begin, Built(messages).end)
        && WrittenAs(sections[..n - 1], chunks[..|chunks| - 1])
      case _ => false
  }

  lemma ChannelWritten(sections: seq<Section>, chunks: seq<seq<Message>>)
    requires WrittenAs(sections, chunks)
    ensures WrittenAs(sections + [Channel], chunks)
  {
    assert (sections + [Channel])[..|sections|] == sections;
  }

  function ChunkSections(c: Chunk): seq<Section> {
    [ChunkHeader(c.begin, c.end), ChunkBody(c.messages)]
  }

  lemma ChunkWritten(sections: seq<Section>, chunks: seq<seq<Message>>, c: Chunk)
    requires WrittenAs(sections, chunks) && c == Built(c.messages) && c.end > 0
    ensures WrittenAs(sections + ChunkSections(c), chunks + [c.messages])
  {
    var all, list := sections + ChunkSections(c), chunks + [c.messages];
    assert all[..|sections|] == sections && list[..|chunks|] == chunks;
    assert all[|sections|] == ChunkHeader(c.begin, c.end) && all[|sections| + 1] == ChunkBody(c.messages);
  }

  ghost predicate NoIndex(sections: seq<Section>) {
    forall i :: 0 <= i < |sections| ==> !sections[i].Index?
  }

  lemma {:induction false} BodiesAppend(sections: seq<Section>, more: seq<Section>, pos: nat)
    requires NoIndex(sections) && pos <= |sections|
    ensures Bodies(sections + more, pos) == Bodies(sections, pos) + Bodies(more, 0)
    decreases |sections| - pos
  {
    if pos < |sections| {
      BodiesAppend(sections, more, pos + 1);
    } else {
      BodiesShift(sections, more, 0);
    }
  }

  lemma {:induction false} BodiesShift(sections: seq<Section>, more: seq<Section>, pos: nat)
    ensures Bodies(sections + more, |sections| + pos) == Bodies(more, pos)
    decreases |more| - pos
  {
    if pos < |more| {
      assert (sections + more)[|sections| + pos] == more[pos];
      BodiesShift(sections, more, pos + 1);
    }
  }

  lemma BodiesOfChunk(c: Chunk)
    ensures Bodies(ChunkSections(c), 0) == c.messages
  {
    assert Bodies(ChunkSections(c), 2) == [];
    assert Bodies(ChunkSections(c), 1) == c.messages + [];
  }

  /** A file holds the messages of its chunks, in order. */
  lemma {:induction false} BodiesAreChunks(sections: seq<Section>, chunks: seq<seq<Message>>)
    requires WrittenAs(sections, chunks)
    ensures NoIndex(sections) && Bodies(sections, 0) == Concat(chunks)
    decreases |sections|
  {
    if sections != [] {
      var n := |sections| - 1;
      if sections[n].Channel? {
        BodiesAreChunks(sections[..n], chunks);
        assert sections == sections[..n] + [Channel];
        BodiesAppend(sections[..n], [Channel], 0);
        assert Bodies([Channel], 0) == Bodies([Channel], 1);
      } else {
        var messages := sections[n].messages;
        BodiesAreChunks(sections[..n - 1], chunks[..|chunks| - 1]);
        BuiltMessages(messages);
        assert sections == sections[..n - 1] + ChunkSections(Built(messages));
        BodiesAppend(sections[..n - 1], ChunkSections(Built(messages)), 0);
        BodiesOfChunk(Built(messages));
      }
    }
  }

  lemma BuiltMessages(messages: seq<Message>)
    ensures Built(messages).messages == messages
  {
    if messages != [] { BuiltMeans(messages); }
  }

  // The header of every chunk bounds its times, and the file header those of all chunks.
  ghost predicate Spanned(chunks: seq<seq<Message>>, begin: nat, end: nat) {
    forall k :: 0 <= k < |chunks| ==>
      && chunks[k] != []
      && (chunks[k][|chunks[k]| - 1].time == 0 || Positive(chunks[k]))
      && Within(chunks[k], begin, end)
  }

  // What WellFormed asks of one section more.
  lemma WellFormedChannel(sections: seq<Section>, begin: nat, end: nat)
    ensures WellFormed(sections + [Channel], begin, end) ==> WellFormed(sections, begin, end)
    ensures WellFormed(sections, begin, end) ==> WellFormed(sections + [Channel], begin, end)
  {
    var all := sections + [Channel];
    assert all[|sections|] == Channel;
    assert forall i :: 0 <= i < |sections| ==> all[i] == sections[i];
    if WellFormed(all, begin, end) {
      forall i | 0 <= i < |sections| && sections[i].ChunkHeader?
        ensures i + 1 < |sections| && sections[i + 1].ChunkBody?
      {
        assert all[i].ChunkHeader?;
      }
    }
  }

  lemma WellFormedChunk(sections: seq<Section>, c: Chunk, begin: nat, end: nat)
    requires WellFormed(sections, begin, end)
    requires c.messages != [] && Within(c.messages, c.begin, c.end) && Within(c.messages, begin, end)
    ensures WellFormed(sections + ChunkSections(c), begin, end)
  {
    var all, n := sections + ChunkSections(c), |sections|;
    assert forall i :: 0 <= i < n ==> all[i] == sections[i];
    assert all[n] == ChunkHeader(c.begin, c.end) && all[n + 1] == ChunkBody(c.messages);
  }

  lemma ChunkWellFormed(sections: seq<Section>, c: Chunk, begin: nat, end: nat)
    requires WellFormed(sections + ChunkSections(c), begin, end)
    ensures WellFormed(sections, begin, end)
    ensures Within(c.messages, c.begin, c.end) && Within(c.messages, begin, end)
  {
    var all, n := sections + ChunkSections(c), |sections|;
    assert forall i :: 0 <= i < n ==> all[i] == sections[i];
    assert all[n] == ChunkHeader(c.begin, c.end) && all[n + 1] == ChunkBody(c.messages);
    forall i | 0 <= i < n && sections[i].ChunkHeader? ensures i + 1 < n && sections[i + 1].ChunkBody? {
      assert all[i].ChunkHeader?;
    }
  }

  /** A file is accurate exactly when the chunk headers bound their messages, by the
      condition of `HeaderSpans`, and the file header bounds them all; the index that
      ends it makes no difference. */
  lemma {:induction false} AccurateExactly(sections: seq<Section>, chunks: seq<seq<Message>>, begin: nat, end: nat)
    requires WrittenAs(sections, chunks)
    ensures WellFormed(sections, begin, end) <==> Spanned(chunks, begin, end)
    decreases |sections|
  {
    if sections != [] {
      var n := |sections| - 1;
      if sections[n].Channel? {
        AccurateExactly(sections[..n], chunks, begin, end);
        assert sections == sections[..n] + [Channel];
        WellFormedChannel(sections[..n], begin, end);
      } else {
        var messages, front := sections[n].messages, chunks[..|chunks| - 1];
        AccurateExactly(sections[..n - 1], front, begin, end);
        BuiltMessages(messages);
        assert sections == sections[..n - 1] + ChunkSections(Built(messages));
        assert chunks == front + [messages];
        AccurateChunk(sections[..n - 1], front, messages, begin, end);
      }
    }
  }

  lemma AccurateChunk(sections: seq<Section>, chunks: seq<seq<Message>>, messages: seq<Message>, begin: nat, end: nat)
    requires messages != [] && (WellFormed(sections, begin, end) <==> Spanned(chunks, begin, end))
    ensures WellFormed(sections + ChunkSections(Built(messages)), begin, end) <==>
            Spanned(chunks + [messages], begin, end)
  {
    var c := Built(messages);
    BuiltMessages(messages);
    HeaderSpans(messages);
    SpannedMore(chunks, messages, begin, end);
    if WellFormed(sections + ChunkSections(c), begin, end) {
      ChunkWellFormed(sections, c, begin, end);
    } else if Spanned(chunks + [messages], begin, end) {
      WellFormedChunk(sections, c, begin, end);
    }
  }

  lemma SpannedMore(chunks: seq<seq<Message>>, messages: seq<Message>, begin: nat, end: nat)
    ensures Spanned(chunks + [messages], begin, end) <==>
            && Spanned(chunks, begin, end) && messages != []
            && (messages[|messages| - 1].time == 0 || Positive(messages)) && Within(messages, begin, end)
  {
    var all := chunks + [messages];
    assert all[|chunks|] == messages;
    assert forall k :: 0 <= k < |chunks| ==> all[k] == chunks[k];
  }

  lemma IndexKeeps(sections: seq<Section>, chunks: seq<seq<Message>>, begin: nat, end: nat)
    requires WrittenAs(sections, chunks)
    ensures WellFormed(sections + [Index], begin, end) <==> WellFormed(sections, begin, end)
  {
    var all := sections + [Index];
    assert forall i :: 0 <= i < |sections| ==> all[i] == sections[i];
    if WellFormed(all, begin, end) {
      forall i | 0 <= i < |sections| && sections[i].ChunkHeader?
        ensures i + 1 < |sections| && sections[i + 1].ChunkBody?
      {
        assert all[i].ChunkHeader?;
      }
    }
  }

  // The times in the file header: the first begin that is not 0, and the last end.
  function FirstBegin(chunks: seq<seq<Message>>): nat {
    if chunks == [] then 0
    else
      var first := FirstBegin(chunks[..|chunks| - 1]);
      if first == 0 then Built(chunks[|chunks| - 1]).begin else first
  }

  function LastEnd(chunks: seq<seq<Message>>): nat {
    if chunks == [] then 0 else Built(chunks[|chunks| - 1]).end
  }

  // What the file header is when no time is 0.
  lemma {:induction false} HeaderMeans(chunks: seq<seq<Message>>)
    requires chunks != [] && forall k :: 0 <= k < |chunks| ==> chunks[k] != [] && Positive(chunks[k])
    ensures FirstBegin(chunks) == Built(chunks[0]).begin > 0
    ensures LastEnd(chunks) == Built(chunks[|chunks| - 1]).end
  {
    BuiltMeans(chunks[0]);
    var front := chunks[..|chunks| - 1];
    if front != [] { HeaderMeans(front); }
  }

  /** The file header does not always bound the times of the file: after a chunk with a
      later message its end is that of the last chunk, and a reader that trusts it finds
      nothing of the later window. */
  lemma HeaderEndsEarly(channel: string, content: string)
    ensures var (late, early) := (Message(100, channel, content), Message(50, channel, content));
            var chunks := [[late], [early]];
            && FirstBegin(chunks) == 100 && LastEnd(chunks) == 50
            && Window(Concat(chunks), 60, 200) == [late]
  {
    var late, early := Message(100, channel, content), Message(50, channel, content);
    var front, chunks := [[late]], [[late], [early]];
    BuiltAdd([], late);
    BuiltAdd([], early);
    assert [] + [late] == [late] && [] + [early] == [early];
    assert front[..|front| - 1] == [] && chunks[..|chunks| - 1] == front;
    assert FirstBegin(front) == 100;
    assert Concat(front) == [late];
    assert Concat(chunks) == Concat(front) + [early];
    assert [late, early][1..] == [early];
    assert Window([late, early], 60, 200) == [late] + Window([early], 60, 200);
    assert Window([early], 60, 200) == [];
  }

  lemma {:induction false} LatestTime(s: seq<Message>) returns (latest: nat)
    ensures Within(s, 0, latest)
  {
    latest := 0;
    if s != [] {
      latest := LatestTime(s[1..]);
      assert forall i :: 0 < i < |s| ==> s[i] == s[1..][i - 1];
      if latest < s[0].time { latest := s[0].time; }
    }
  }

  // The chunks of a file without times of 0.
  ghost predicate Sound(chunks: seq<seq<Message>>) {
    forall k :: 0 <= k < |chunks| ==> chunks[k] != [] && Positive(chunks[k])
  }

  lemma {:induction false} SoundWithin(chunks: seq<seq<Message>>, begin: nat, end: nat)
    requires Sound(chunks)
    ensures Within(Concat(chunks), begin, end) <==> Spanned(chunks, begin, end)
  {
    if chunks != [] {
      var front, last := chunks[..|chunks| - 1], chunks[|chunks| - 1];
      SoundWithin(front, begin, end);
      SpannedMore(front, last, begin, end);
      assert chunks == front + [last];
      WithinConcat(Concat(front), last, begin, end);
    }
  }

  lemma WithinConcat(a: seq<Message>, b: seq<Message>, begin: nat, end: nat)
    ensures Within(a + b, begin, end) <==> Within(a, begin, end) && Within(b, begin, end)
  {
    if Within(a + b, begin, end) {
      assert forall i :: 0 <= i < |a| ==> (a + b)[i] == a[i];
      assert forall i :: 0 <= i < |b| ==> (a + b)[|a| + i] == b[i];
    }
  }

  /** What a reader finds in a file whose messages have times above 0: what it would find
      in the messages as they were written, unless the file header says that the window
      is outside the file. */
  lemma WrittenIsRead(sections: seq<Section>, chunks: seq<seq<Message>>, begin: nat, end: nat)
    requires WrittenAs(sections, chunks) && Sound(chunks) && begin <= end
    ensures Bodies(sections + [Index], 0) == Concat(chunks)
    ensures WindowFrom(sections + [Index], START, begin, end).1 == Window(Concat(chunks), begin, end)
  {
    var all := sections + [Index];
    BodiesAreChunks(sections, chunks);
    BodiesAppend(sections, [Index], 0);
    var latest := LatestTime(Concat(chunks));
    SoundWithin(chunks, 0, latest);
    AccurateExactly(sections, chunks, 0, latest);
    IndexKeeps(sections, chunks, 0, latest);
    WindowFromMeans(all, START, begin, end, 0, latest);
    assert RemOf(all, START) == Bodies(all, 0);
  }

  // ---------------------------------------------------------------------
  // The writer

  class FileWriter {
    const chunkInterval: nat
    const chunkRawSize: nat
    var isOpen: bool
    var sections: seq<Section>
    var headerBegin: nat
    var headerEnd: nat
    var active: Chunk
    var flushing: Option<Chunk>   // the chunk that the flush task has not written yet
    ghost var chunks: seq<seq<Message>>

    ghost predicate Valid()
      reads this
    {
      && active == Built(active.messages)
      && (flushing.Some? ==> flushing.value == Built(flushing.value.messages))
      && headerBegin == FirstBegin(chunks) && headerEnd == LastEnd(chunks)
      && (isOpen ==> WrittenAs(sections, chunks))
      && (!isOpen ==> Closed(sections, chunks) && flushing == None && active == EMPTY)
    }

    static ghost predicate Closed(sections: seq<Section>, chunks: seq<seq<Message>>) {
      sections != [] && sections[|sections| - 1] == Index && WrittenAs(sections[..|sections| - 1], chunks)
    }

    ghost function Pending(): seq<Message>
      reads `flushing
    {
      if flushing.Some? then flushing.value.messages else []
    }

    /** What the file will hold: the chunks written, the one being written, and the next. */
    ghost function Log(): seq<Message>
      reads `chunks, `flushing, `active
    {
      Concat(chunks) + Pending() + active.messages
    }

    constructor (chunkInterval: nat, chunkRawSize: nat)
      ensures Valid() && isOpen && Log() == [] && chunks == []
      ensures this.chunkInterval == chunkInterval && this.chunkRawSize == chunkRawSize
    {
      this.chunkInterval, this.chunkRawSize, isOpen := chunkInterval, chunkRawSize, true;
      sections, headerBegin, headerEnd, active, flushing := [], 0, 0, EMPTY, None;
      chunks := [];
    }

    method WriteChannel()
      requires Valid() && isOpen
      modifies this`sections
      ensures Valid() && isOpen && Log() == old(Log())
    {
      ChannelWritten(sections, chunks);
      sections := sections + [Channel];
    }

    // The header before the body, in one locked step.
    method WriteChunk(c: Chunk)
      requires Valid() && isOpen && c == Built(c.messages) && c.end > 0
      modifies this`sections, this`headerBegin, this`headerEnd, this`chunks
      ensures Valid() && isOpen && chunks == old(chunks) + [c.messages]
    {
      ChunkWritten(sections, chunks, c);
      assert (chunks + [c.messages])[..|chunks|] == chunks;
      sections := sections + ChunkSections(c);
      if headerBegin == 0 {
        headerBegin := c.begin;
      }
      headerEnd := c.end;
      chunks := chunks + [c.messages];
    }

    // A chunk without messages, or with none later than 0, is not written at all.
    method Flush(c: Chunk)
      requires Valid() && isOpen && c == Built(c.messages)
      modifies this`sections, this`headerBegin, this`headerEnd, this`chunks
      ensures Valid() && isOpen
      ensures chunks == if c.end == 0 then old(chunks) else old(chunks) + [c.messages]
    {
      if c.end == 0 || |c.messages| == 0 {
        return;
      }
      WriteChunk(c);
    }

    // The task that a full chunk has been given to comes to its end.
    method FlushTask()
      requires Valid() && isOpen
      modifies this`sections, this`headerBegin, this`headerEnd, this`chunks, this`flushing
      ensures Valid() && isOpen && flushing == None
      ensures Positive(old(Pending())) ==> Log() == old(Log())
      ensures Sound(old(chunks)) && Positive(old(Pending())) ==> Sound(chunks)
    {
      if flushing.Some? {
        var c := flushing.value;
        flushing := None;
        PositiveChunk(c);
        LogFlushed(chunks, c.messages, active.messages);
        Flush(c);
      }
    }

    // Whether a chunk is long or large enough to be written.
    predicate IsFull(c: Chunk, m: Message) {
      || (chunkInterval > 0 && m.time - c.begin > chunkInterval)
      || (chunkRawSize > 0 && c.rawSize > chunkRawSize)
    }

    /** Adds the message to the chunk, and gives a full chunk to the flush task. If that
        is still writing the chunk before, the full one is thrown away: `skipped`. */
    method WriteMessage(m: Message) returns (skipped: bool)
      requires Valid() && isOpen
      modifies this`active, this`flushing
      ensures Valid() && isOpen
      ensures var c := Built(old(active.messages) + [m]);
              var full := (chunkInterval > 0 && m.time > c.begin + chunkInterval)
                          || (chunkRawSize > 0 && Contents(c.messages) > chunkRawSize);
              (skipped <==> full && old(flushing).Some?) && active == if full then EMPTY else c
      ensures !skipped ==> Log() == old(Log()) + [m]
      ensures skipped ==> Log() == old(Concat(chunks) + Pending())
      ensures chunks == old(chunks)
    {
      AddToChunk(m);
      skipped := false;
      if IsFull(active, m) {
        skipped := HandOver();
      }
    }

    // One message, after the flush task has ended if `done`.
    method Accept(m: Message, done: bool) returns (skipped: bool)
      requires Valid() && isOpen
      modifies this
      ensures Valid() && isOpen && (done ==> !skipped)
      ensures Positive(old(Log())) && !skipped ==> Log() == old(Log()) + [m]
      ensures Positive(old(Log())) && Sound(old(chunks)) ==> Sound(chunks)
    {
      PositiveParts(Concat(chunks) + Pending(), active.messages);
      PositiveParts(Concat(chunks), Pending());
      if done {
        FlushTask();
      }
      skipped := WriteMessage(m);
    }

    method AddToChunk(m: Message)
      requires Valid() && isOpen
      modifies this`active
      ensures Valid() && isOpen
      ensures active == Built(old(active.messages) + [m]) && Log() == old(Log()) + [m]
      ensures active.messages == old(active.messages) + [m] && active.rawSize == Contents(active.messages)
    {
      BuiltAdd(active.messages, m);
      BuiltMessages(active.messages);
      BuiltSize(active.messages + [m]);
      active := Add(active, m);
    }

    // The full chunk goes to the flush task, or away; a new one begins.
    method HandOver() returns (skipped: bool)
      requires Valid() && isOpen
      modifies this`active, this`flushing
      ensures Valid() && isOpen
      ensures skipped <==> old(flushing).Some?
      ensures active == EMPTY && chunks == old(chunks)
      ensures Log() == if skipped then old(Concat(chunks) + Pending()) else old(Log())
    {
      skipped := flushing.Some?;
      if flushing == None {
        flushing := Some(active);
      }
      active := EMPTY;
    }

    // The last chunk is written however small it is.
    method FlushActive()
      requires Valid() && isOpen && flushing == None
      modifies this`sections, this`headerBegin, this`headerEnd, this`chunks, this`active
      ensures Valid() && isOpen && flushing == None && active == EMPTY
      ensures Positive(old(active.messages)) ==> Log() == old(Log())
      ensures Sound(old(chunks)) && Positive(old(active.messages)) ==> Sound(chunks)
    {
      var last := active;
      active := EMPTY;
      PositiveChunk(last);
      LogWritten(chunks, last.messages);
      Flush(last);
    }

    // The index ends the file.
    method WriteIndex()
      requires Valid() && isOpen && flushing == None && active == EMPTY
      modifies this`sections, this`isOpen
      ensures Valid() && !isOpen && sections == old(sections) + [Index]
    {
      assert (sections + [Index])[..|sections|] == sections;
      sections := sections + [Index];
      isOpen := false;
    }

    /** Waits for the flush task, writes the last chunk, and ends the file with its index. */
    method Close()
      requires Valid()
      modifies this
      ensures Valid() && !isOpen
      ensures !old(isOpen) ==> sections == old(sections) && chunks == old(chunks)
      ensures Positive(old(Log())) ==> Log() == old(Log())
      ensures Positive(old(Log())) && Sound(old(chunks)) ==> Sound(chunks)
    {
      if !isOpen {
        return;
      }
      PositiveParts(Concat(chunks) + Pending(), active.messages);
      PositiveParts(Concat(chunks), Pending());
      FlushTask();
      FlushActive();
      WriteIndex();
    }

    // Nothing is pending in a closed file.
    lemma ClosedLog()
      requires Valid() && !isOpen
      ensures Log() == Concat(chunks)
    {
      assert Concat(chunks) + [] + [] == Concat(chunks);
    }
  }

  // A chunk that the flush task writes moves to the end of the file.
  lemma LogFlushed(chunks: seq<seq<Message>>, messages: seq<Message>, next: seq<Message>)
    ensures Concat(chunks + [messages]) + [] + next == Concat(chunks) + messages + next
    ensures messages != [] && Positive(messages) && Sound(chunks) ==> Sound(chunks + [messages])
  {
    assert (chunks + [messages])[..|chunks|] == chunks;
  }

  // So does the last one.
  lemma LogWritten(chunks: seq<seq<Message>>, messages: seq<Message>)
    ensures Concat(chunks + [messages]) + [] + [] == Concat(chunks) + [] + messages
    ensures messages != [] && Positive(messages) && Sound(chunks) ==> Sound(chunks + [messages])
  {
    assert (chunks + [messages])[..|chunks|] == chunks;
  }

  lemma PositiveParts(a: seq<Message>, b: seq<Message>)
    ensures Positive(a + b) <==> Positive(a) && Positive(b)
  {
    if Positive(a + b) {
      assert forall i :: 0 <= i < |a| ==> (a + b)[i] == a[i];
      assert forall i :: 0 <= i < |b| ==> (a + b)[|a| + i] == b[i];
    }
  }

  lemma PositiveChunk(c: Chunk)
    requires c == Built(c.messages)
    ensures c.messages != [] && Positive(c.messages) ==> c.end > 0
    ensures c.messages == [] ==> c.end == 0
  {
    if c.messages != [] { BuiltMeans(c.messages); }
  }

  // ---------------------------------------------------------------------
  // There and back

  lemma WindowOfAll(s: seq<Message>, end: nat)
    requires Within(s, 0, end)
    ensures Window(s, 0, end) == s
  {
    WindowReturnsAll(s, 0, end);
    RangeOfAll(s, end);
  }

  lemma {:induction false} RangeOfAll(s: seq<Message>, end: nat)
    requires Within(s, 0, end)
    ensures InRange(s, 0, end) == s
  {
    if s != [] {
      assert forall i :: 0 <= i < |s| - 1 ==> s[1..][i] == s[i + 1];
      RangeOfAll(s[1..], end);
    }
  }

  lemma PositivePrefix(s: seq<Message>, n: nat)
    requires n <= |s| && Positive(s)
    ensures Positive(s[..n])
  {
  }

  ghost predicate InTime(done: seq<bool>) {
    forall i :: 0 <= i < |done| ==> done[i]
  }

  // The i-th message is written after the flush task has ended, if `done[i]`; `kept`
  // says that no chunk was thrown away.
  method WriteAll(w: FileWriter, messages: seq<Message>, done: seq<bool>) returns (kept: bool)
    requires w.Valid() && w.isOpen && w.Log() == [] && w.chunks == [] && |done| == |messages|
    modifies w
    ensures w.Valid() && w.isOpen
    ensures InTime(done) ==> kept
    ensures kept && Positive(messages) ==> w.Log() == messages && Sound(w.chunks)
  {
    kept := true;
    for n := 0 to |messages|
      invariant w.Valid() && w.isOpen
      invariant InTime(done) ==> kept
      invariant kept && Positive(messages) ==> w.Log() == messages[..n] && Sound(w.chunks)
    {
      if Positive(messages) { PositivePrefix(messages, n); }
      var skipped := w.Accept(messages[n], done[n]);
      kept := kept && !skipped;
      assert messages[..n + 1] == messages[..n] + [messages[n]];
    }
    assert messages[..|messages|] == messages;
  }

  /** A whole file, from Open to Close. */
  method Write(messages: seq<Message>, done: seq<bool>, chunkInterval: nat, chunkRawSize: nat)
    returns (w: FileWriter, kept: bool)
    requires |done| == |messages|
    ensures fresh(w) && w.Valid() && !w.isOpen
    ensures InTime(done) ==> kept
    ensures kept && Positive(messages) ==> Concat(w.chunks) == messages && Sound(w.chunks)
  {
    w := new FileWriter(chunkInterval, chunkRawSize);
    kept := WriteAll(w, messages, done);
    w.Close();
    w.ClosedLog();
  }

  // The end of a file without times of 0 is on its last chunk, its first time in the first.
  lemma EndsOfFile(chunks: seq<seq<Message>>)
    requires Sound(chunks) && chunks != []
    ensures var all := Concat(chunks);
            && all != [] && all[0] == chunks[0][0]
            && FirstBegin(chunks) <= all[0].time && all[|all| - 1].time <= LastEnd(chunks)
            && exists i :: 0 <= i < |chunks[0]| && chunks[0][i].time == FirstBegin(chunks)
  {
    var last := chunks[|chunks| - 1];
    HeaderMeans(chunks);
    BuiltMeans(chunks[0]);
    BuiltMeans(last);
    FirstOfFile(chunks);
    assert Concat(chunks) == Concat(chunks[..|chunks| - 1]) + last;
  }

  lemma {:induction false} FirstOfFile(chunks: seq<seq<Message>>)
    requires Sound(chunks) && chunks != []
    ensures Concat(chunks) != [] && Concat(chunks)[0] == chunks[0][0]
  {
    var front := chunks[..|chunks| - 1];
    if front != [] { FirstOfFile(front); }
  }

  ghost predicate NoneLater(s: seq<Message>, end: int) {
    forall i :: 0 <= i < |s| ==> s[i].time <= end
  }

  // The windows that the file header excludes hold nothing.
  ghost predicate HeaderIsRight(chunks: seq<seq<Message>>) {
    forall begin: nat, end: nat :: begin <= end && (begin > LastEnd(chunks) || end < FirstBegin(chunks)) ==>
      Window(Concat(chunks), begin, end) == []
  }

  // A message at or after `begin` is in the window that takes in everything from there on.
  lemma LateWindow(s: seq<Message>, i: nat) returns (end: nat)
    requires i < |s|
    ensures s[i].time <= end && Window(s, s[i].time, end) != []
  {
    end := LatestTime(s);
    WindowReturnsAll(s, s[i].time, end);
    NoneInRange(s, s[i].time, end);
  }

  lemma EarlierWindow(s: seq<Message>, begin: nat, end: nat)
    requires NoneLater(s, begin - 1) || s == [] || s[0].time > end
    requires begin > 0 && begin <= end
    ensures Window(s, begin, end) == []
  {
    if NoneLater(s, begin - 1) {
      EarlyPrefix(s, [], begin, end);
      assert s + [] == s;
    }
  }

  /** The file header hides messages from a reader if and only if some message is later
      than the end of the last chunk. */
  lemma HeaderDecides(chunks: seq<seq<Message>>)
    requires Sound(chunks) && chunks != []
    ensures HeaderIsRight(chunks) <==> NoneLater(Concat(chunks), LastEnd(chunks))
  {
    var all, last := Concat(chunks), LastEnd(chunks);
    EndsOfFile(chunks);
    if NoneLater(all, last) {
      forall begin: nat, end: nat | begin <= end && (begin > last || end < FirstBegin(chunks))
        ensures Window(all, begin, end) == []
      {
        if begin > last { EarlierWindow(all, begin, end); } else { assert all[0].time > end; }
      }
    } else {
      var i :| 0 <= i < |all| && all[i].time > last;
      var end := LateWindow(all, i);
      assert !HeaderIsRight(chunks);
    }
  }

  lemma SortedNoneLater(chunks: seq<seq<Message>>)
    requires Sound(chunks) && chunks != [] && Sorted(Concat(chunks))
    ensures NoneLater(Concat(chunks), LastEnd(chunks))
  {
    EndsOfFile(chunks);
  }

  // What the reader of a written file finds, by the window and the file header.
  function Found(chunks: seq<seq<Message>>, begin: nat, end: nat): seq<Message> {
    if begin > LastEnd(chunks) || end < FirstBegin(chunks) then [] else Window(Concat(chunks), begin, end)
  }

  lemma FoundInOrder(chunks: seq<seq<Message>>, begin: nat, end: nat)
    requires Sound(chunks) && begin <= end && Sorted(Concat(chunks))
    ensures Found(chunks, begin, end) == InRange(Concat(chunks), begin, end)
  {
    WindowReturnsAll(Concat(chunks), begin, end);
    if chunks != [] {
      SortedNoneLater(chunks);
      HeaderDecides(chunks);
      assert HeaderIsRight(chunks);
    }
  }

  lemma FoundWhole(chunks: seq<seq<Message>>, end: nat)
    requires Sound(chunks) && Within(Concat(chunks), 0, end)
    ensures Found(chunks, 0, end) == Concat(chunks)
  {
    WindowOfAll(Concat(chunks), end);
    if chunks != [] {
      EndsOfFile(chunks);
      SoundWithin(chunks, 0, end);
      assert Within(chunks[0], 0, end);
    }
  }

  // A reader of the file, with the file header as it was written.
  method ReadWritten(w: FileWriter, begin: nat, end: nat) returns (out: seq<Message>)
    requires w.Valid() && !w.isOpen && begin <= end
    ensures Sound(w.chunks) ==> out == Found(w.chunks, begin, end)
  {
    var reader := new Reader(w.sections, true, w.headerBegin, w.headerEnd);
    out := ReadWindow(reader, begin, end);
    if Sound(w.chunks) {
      WrittenIsRead(w.sections[..|w.sections| - 1], w.chunks, begin, end);
      assert w.sections == w.sections[..|w.sections| - 1] + [Index];
    }
  }

  /** There and back: whatever the size of the chunks, and whenever the flush task ran as
      long as it was never late, a reader of the file finds all messages as they were
      written; and of messages in time order, exactly those of any window. Times are
      above 0: 0 means "not set". */
  method RoundTrip(messages: seq<Message>, done: seq<bool>, chunkInterval: nat, chunkRawSize: nat,
                   begin: nat, end: nat)
    returns (kept: bool, out: seq<Message>)
    requires |done| == |messages| && begin <= end
    ensures (forall i :: 0 <= i < |done| ==> done[i]) ==> kept
    ensures kept && (forall i :: 0 <= i < |messages| ==> 0 < messages[i].time <= end) && begin == 0 ==> out == messages
    ensures kept && (forall i :: 0 <= i < |messages| ==> 0 < messages[i].time) && Sorted(messages) ==>
              out == InRange(messages, begin, end)
  {
    var w: FileWriter;
    w, kept := Write(messages, done, chunkInterval, chunkRawSize);
    out := ReadWritten(w, begin, end);
    if kept && Positive(messages) {
      if Sorted(messages) { FoundInOrder(w.chunks, begin, end); }
      if begin == 0 && Within(messages, 0, end) { FoundWhole(w.chunks, end); }
    }
  }
}
