/** The section-stream reader of cyber/record/record_reader.cc. A file is its
    sequence of sections; a section that cannot be read is one of its own kind. */
module RecordReader {
  import opened Options
  import opened RecordSpec

  datatype Section =
    | Channel
    | ChunkHeader(begin: nat, end: nat)
    | ChunkBody(messages: seq<Message>)
    | Index
    | BrokenBody   // a chunk body that does not parse
    | Broken       // any other section that does not parse, or of an unknown type

  // The messages of the sections from `pos` on, up to the index.
  function Bodies(sections: seq<Section>, pos: nat): seq<Message>
    decreases |sections| - pos
  {
    if pos >= |sections| || sections[pos].Index? then []
    else if sections[pos].ChunkBody? then sections[pos].messages + Bodies(sections, pos + 1)
    else Bodies(sections, pos + 1)
  }

  ghost predicate Within(messages: seq<Message>, begin: nat, end: nat) {
    forall i :: 0 <= i < |messages| ==> begin <= messages[i].time <= end
  }

  /** What the writer produces: a header directly before each body, which is not
      empty and keeps within the times of its header, and within those of the file. */
  ghost predicate WellFormed(sections: seq<Section>, begin: nat, end: nat) {
    && (forall i :: 0 <= i < |sections| ==> !sections[i].BrokenBody? && !sections[i].Broken?)
    && (forall i :: 0 <= i < |sections| && sections[i].ChunkBody? ==>
          && i > 0 && sections[i - 1].ChunkHeader?
          && sections[i].messages != []
          && Within(sections[i].messages, sections[i - 1].begin, sections[i - 1].end)
          && Within(sections[i].messages, begin, end))
    && (forall i :: 0 <= i < |sections| && sections[i].ChunkHeader? ==>
          i + 1 < |sections| && sections[i + 1].ChunkBody?)
  }

  lemma {:induction false} BodiesWithin(sections: seq<Section>, pos: nat, begin: nat, end: nat)
    requires WellFormed(sections, begin, end)
    ensures Within(Bodies(sections, pos), begin, end)
    decreases |sections| - pos
  {
    if pos < |sections| && !sections[pos].Index? {
      BodiesWithin(sections, pos + 1, begin, end);
    }
  }

  // A header past the window: so is the first message after it.
  lemma HeaderPastWindow(sections: seq<Section>, pos: nat, fileBegin: nat, fileEnd: nat, end: nat)
    requires WellFormed(sections, fileBegin, fileEnd)
    requires pos < |sections| && sections[pos].ChunkHeader? && sections[pos].begin > end
    ensures var rem := Bodies(sections, pos); rem != [] && rem[0].time > end
  {
    assert sections[pos + 1].ChunkBody?;
    var messages := sections[pos + 1].messages;
    assert Bodies(sections, pos) == messages + Bodies(sections, pos + 2);
    assert messages[0].time > end;
  }

  // What is left of a chunk, followed by what is left of the file.
  function Left(chunk: seq<Message>, index: nat, unread: seq<Message>): seq<Message> {
    (if index <= |chunk| then chunk[index..] else []) + unread
  }

  lemma LeftStep(chunk: seq<Message>, index: nat, unread: seq<Message>)
    requires index < |chunk|
    ensures Left(chunk, index, unread) == [chunk[index]] + Left(chunk, index + 1, unread)
  {
    assert chunk[index..] == [chunk[index]] + chunk[index + 1..];
  }

  // The contract of a read over what was left: the window loses its first message,
  // and nothing past the window is touched.
  ghost predicate Reads(before: seq<Message>, message: Option<Message>, after: seq<Message>, begin: nat, end: nat) {
    && Rest(before, end) == Rest(after, end)
    && match message
       case Some(m) => Window(before, begin, end) == [m] + Window(after, begin, end)
       case None => Window(before, begin, end) == [] && after == Rest(before, end)
  }

  lemma ReadsFirst(early: seq<Message>, m: Message, after: seq<Message>, begin: nat, end: nat)
    requires Before(early, begin) && begin <= m.time <= end
    ensures Reads(early + ([m] + after), Some(m), after, begin, end)
  {
    EarlyPrefix(early, [m] + after, begin, end);
    assert ([m] + after)[1..] == after;
  }

  lemma ReadsNothing(early: seq<Message>, after: seq<Message>, begin: nat, end: nat)
    requires Before(early, begin) && begin <= end && (after == [] || after[0].time > end)
    ensures Reads(early + after, None, after, begin, end)
  {
    EarlyPrefix(early, after, begin, end);
  }

  lemma ReadsLater(early: seq<Message>, skipped: seq<Message>, before: seq<Message>, message: Option<Message>,
                   after: seq<Message>, begin: nat, end: nat)
    requires Before(early, begin) && Before(skipped, begin) && begin <= end
    requires Reads(before, message, after, begin, end)
    ensures Reads(early + (skipped + before), message, after, begin, end)
  {
    EarlyPrefix(skipped, before, begin, end);
    EarlyPrefix(early, skipped + before, begin, end);
  }

  // ---------------------------------------------------------------------
  // What reading does to the state of a reader, over any file at all

  datatype Cursor = Cursor(pos: nat, reachEnd: bool, chunk: seq<Message>, messageIndex: nat)

  const START := Cursor(0, false, [], 0)

  // The messages that the sections still unread hold, and those that are left in all.
  function UnreadOf(sections: seq<Section>, c: Cursor): seq<Message> {
    if c.reachEnd then [] else Bodies(sections, c.pos)
  }

  function RemOf(sections: seq<Section>, c: Cursor): seq<Message> {
    Left(c.chunk, c.messageIndex, UnreadOf(sections, c))
  }

  // The chunk that comes next, if one does; `skip`: the next body is passed over.
  function NextChunk(sections: seq<Section>, c: Cursor, skip: bool, begin: nat, end: nat): (r: (Cursor, bool))
    ensures c.pos <= r.0.pos && (r.1 ==> c.pos < r.0.pos <= |sections|)
    ensures r.0.messageIndex == c.messageIndex
    decreases |sections| - c.pos
  {
    if c.reachEnd || c.pos >= |sections| then (c, false)
    else
      var after := c.(pos := c.pos + 1);
      match sections[c.pos]
      case Index => (after.(reachEnd := true), false)
      case Channel => NextChunk(sections, after, skip, begin, end)
      case ChunkHeader(chunkBegin, chunkEnd) =>
        if chunkBegin > end then (after, false)
        else NextChunk(sections, after, skip || chunkEnd < begin, begin, end)
      case ChunkBody(messages) =>
        if skip then NextChunk(sections, after, false, begin, end) else (after.(chunk := messages), true)
      case BrokenBody =>
        if skip then NextChunk(sections, after, false, begin, end) else (after.(chunk := []), false)
      case Broken => (after, false)
  }

  // The next message of the window in the current chunk, or whether one past it comes first.
  function NextInChunk(c: Cursor, begin: nat, end: nat): (r: (Cursor, Option<Message>, bool))
    ensures r.0.pos == c.pos && r.0.chunk == c.chunk && c.messageIndex <= r.0.messageIndex
    ensures r.1.Some? ==> c.messageIndex < r.0.messageIndex <= |c.chunk|
    ensures r.1 == None && !r.2 ==> r.0.messageIndex >= |c.chunk|
    decreases |c.chunk| - c.messageIndex
  {
    if c.messageIndex >= |c.chunk| then (c, None, false)
    else
      var m, after := c.chunk[c.messageIndex], c.(messageIndex := c.messageIndex + 1);
      if m.time > end then (c, None, true)
      else if m.time < begin then NextInChunk(after, begin, end)
      else (after, Some(m), false)
  }

  function NextMessage(sections: seq<Section>, c: Cursor, begin: nat, end: nat): (r: (Cursor, Option<Message>))
    ensures r.1.Some? ==> c.pos < r.0.pos <= |sections|
                          || (r.0.pos == c.pos && r.0.chunk == c.chunk && c.messageIndex < r.0.messageIndex <= |c.chunk|)
    decreases |sections| - c.pos
  {
    var (c1, m, past) := NextInChunk(c, begin, end);
    if m.Some? || past then (c1, m)
    else
      var (c2, ok) := NextChunk(sections, c1, false, begin, end);
      if ok then NextMessage(sections, c2.(messageIndex := 0), begin, end) else (c2, None)
  }

  // All that one window gives, message after message.
  function WindowFrom(sections: seq<Section>, c: Cursor, begin: nat, end: nat): (Cursor, seq<Message>)
    decreases |sections| - c.pos, |c.chunk| - c.messageIndex
  {
    var (c1, m) := NextMessage(sections, c, begin, end);
    if m == None then (c1, [])
    else
      var (c2, rest) := WindowFrom(sections, c1, begin, end);
      (c2, [m.value] + rest)
  }

  // A body is skipped only after a header that ends before the window.
  ghost predicate Skips(sections: seq<Section>, c: Cursor, begin: nat) {
    && !c.reachEnd && 0 < c.pos < |sections| && sections[c.pos].ChunkBody?
    && sections[c.pos - 1].ChunkHeader? && sections[c.pos - 1].end < begin
  }

  lemma PassOver(a: seq<Message>, b: seq<Message>, c: seq<Message>, begin: nat)
    ensures a + (b + c) == (a + b) + c
    ensures Before(a, begin) && Before(b, begin) ==> Before(a + b, begin)
  {
  }

  /** Over an accurate file, what the search for a chunk passes over is before the
      window; a chunk that begins after it stays unread, although its header has been
      consumed. */
  lemma {:induction false} NextChunkMeans(sections: seq<Section>, c: Cursor, skip: bool, begin: nat, end: nat,
                                          fileBegin: nat, fileEnd: nat) returns (pre: seq<Message>)
    requires WellFormed(sections, fileBegin, fileEnd) && begin <= end
    requires skip ==> Skips(sections, c, begin)
    ensures var (c', ok) := NextChunk(sections, c, skip, begin, end);
            && Before(pre, begin)
            && (ok ==> UnreadOf(sections, c) == pre + (c'.chunk + UnreadOf(sections, c')))
            && (!ok ==>
                  && c'.chunk == c.chunk && UnreadOf(sections, c) == pre + UnreadOf(sections, c')
                  && (UnreadOf(sections, c') == [] || UnreadOf(sections, c')[0].time > end))
    decreases |sections| - c.pos
  {
    pre := [];
    if !c.reachEnd && c.pos < |sections| {
      var after := c.(pos := c.pos + 1);
      match sections[c.pos]
      case Channel => pre := NextChunkMeans(sections, after, skip, begin, end, fileBegin, fileEnd);
      case ChunkHeader(chunkBegin, chunkEnd) =>
        if chunkBegin > end {
          HeaderPastWindow(sections, c.pos, fileBegin, fileEnd, end);
        } else {
          pre := NextChunkMeans(sections, after, chunkEnd < begin, begin, end, fileBegin, fileEnd);
        }
      case ChunkBody(messages) =>
        if skip {
          var more := NextChunkMeans(sections, after, false, begin, end, fileBegin, fileEnd);
          var (c', ok) := NextChunk(sections, c, skip, begin, end);
          pre := messages + more;
          PassOver(messages, more, if ok then c'.chunk + UnreadOf(sections, c') else UnreadOf(sections, c'), begin);
        }
      case _ =>
    }
  }

  lemma {:induction false} NextInChunkMeans(sections: seq<Section>, c: Cursor, begin: nat, end: nat)
    returns (pre: seq<Message>)
    requires begin <= end
    ensures var (c', m, past) := NextInChunk(c, begin, end);
            && Before(pre, begin)
            && (m == None ==> RemOf(sections, c) == pre + RemOf(sections, c'))
            && (m.Some? ==> begin <= m.value.time <= end
                            && RemOf(sections, c) == pre + ([m.value] + RemOf(sections, c')))
            && (past ==> m == None && RemOf(sections, c') != [] && RemOf(sections, c')[0].time > end)
            && (m == None && !past ==> RemOf(sections, c') == UnreadOf(sections, c'))
    decreases |c.chunk| - c.messageIndex
  {
    pre := [];
    if c.messageIndex < |c.chunk| {
      var m, after := c.chunk[c.messageIndex], c.(messageIndex := c.messageIndex + 1);
      LeftStep(c.chunk, c.messageIndex, UnreadOf(sections, c));
      if m.time < begin {
        var more := NextInChunkMeans(sections, after, begin, end);
        var (c', found, past) := NextInChunk(c, begin, end);
        pre := [m] + more;
        PassOver([m], more, if found.Some? then [found.value] + RemOf(sections, c') else RemOf(sections, c'), begin);
      }
    }
  }

  /** Over an accurate file, the next message is exactly the next one of the window that
      remains, and what lies past the window is left for the windows to come. */
  lemma {:induction false} NextMessageMeans(sections: seq<Section>, c: Cursor, begin: nat, end: nat,
                                            fileBegin: nat, fileEnd: nat)
    requires WellFormed(sections, fileBegin, fileEnd) && begin <= end
    ensures var (c', m) := NextMessage(sections, c, begin, end);
            Reads(RemOf(sections, c), m, RemOf(sections, c'), begin, end)
    decreases |sections| - c.pos
  {
    var (c1, m, past) := NextInChunk(c, begin, end);
    var early := NextInChunkMeans(sections, c, begin, end);
    if m.Some? {
      ReadsFirst(early, m.value, RemOf(sections, c1), begin, end);
    } else if past {
      ReadsNothing(early, RemOf(sections, c1), begin, end);
    } else {
      var (c2, ok) := NextChunk(sections, c1, false, begin, end);
      var skipped := NextChunkMeans(sections, c1, false, begin, end, fileBegin, fileEnd);
      var (c', found) := NextMessage(sections, c, begin, end);
      if ok {
        var next := c2.(messageIndex := 0);
        assert RemOf(sections, next) == c2.chunk + UnreadOf(sections, c2);
        NextMessageMeans(sections, next, begin, end, fileBegin, fileEnd);
        ReadsLater(early, skipped, RemOf(sections, next), found, RemOf(sections, c'), begin, end);
      } else {
        assert RemOf(sections, c2) == UnreadOf(sections, c2);
        ReadsNothing(skipped, RemOf(sections, c2), begin, end);
        ReadsLater(early, [], skipped + RemOf(sections, c2), None, RemOf(sections, c2), begin, end);
        assert [] + (skipped + RemOf(sections, c2)) == skipped + RemOf(sections, c2);
      }
    }
  }

  lemma {:induction false} NextMessageInWindow(sections: seq<Section>, c: Cursor, begin: nat, end: nat)
    ensures var (_, m) := NextMessage(sections, c, begin, end); m.Some? ==> begin <= m.value.time <= end
    decreases |sections| - c.pos
  {
    FoundInWindow(c, begin, end);
    var (c1, m, past) := NextInChunk(c, begin, end);
    if m == None && !past {
      var (c2, ok) := NextChunk(sections, c1, false, begin, end);
      if ok { NextMessageInWindow(sections, c2.(messageIndex := 0), begin, end); }
    }
  }

  lemma {:induction false} FoundInWindow(c: Cursor, begin: nat, end: nat)
    ensures var (_, m, _) := NextInChunk(c, begin, end); m.Some? ==> begin <= m.value.time <= end
    decreases |c.chunk| - c.messageIndex
  {
    if c.messageIndex < |c.chunk| && c.chunk[c.messageIndex].time < begin {
      FoundInWindow(c.(messageIndex := c.messageIndex + 1), begin, end);
    }
  }

  /** Over an accurate file, reading a window until nothing comes gives the window of
      what is left, and leaves the rest. */
  lemma {:induction false} WindowFromMeans(sections: seq<Section>, c: Cursor, begin: nat, end: nat,
                                           fileBegin: nat, fileEnd: nat)
    requires WellFormed(sections, fileBegin, fileEnd) && begin <= end
    ensures var (c', got) := WindowFrom(sections, c, begin, end);
            got == Window(RemOf(sections, c), begin, end) && RemOf(sections, c') == Rest(RemOf(sections, c), end)
    decreases |sections| - c.pos, |c.chunk| - c.messageIndex
  {
    NextMessageMeans(sections, c, begin, end, fileBegin, fileEnd);
    var (c1, m) := NextMessage(sections, c, begin, end);
    if m.Some? { WindowFromMeans(sections, c1, begin, end, fileBegin, fileEnd); }
  }

  lemma {:induction false} WindowFromInWindow(sections: seq<Section>, c: Cursor, begin: nat, end: nat)
    ensures Within(WindowFrom(sections, c, begin, end).1, begin, end)
    decreases |sections| - c.pos, |c.chunk| - c.messageIndex
  {
    NextMessageInWindow(sections, c, begin, end);
    var (c1, m) := NextMessage(sections, c, begin, end);
    if m.Some? { WindowFromInWindow(sections, c1, begin, end); }
  }

  // ---------------------------------------------------------------------
  // Over any file at all

  // Why a search for a chunk that has come to `pos` gives up there: the file ends, or
  // the section before `pos` is the index, cannot be read, or says that the next chunk
  // is past the window.
  predicate StopsAt(sections: seq<Section>, pos: nat, end: nat) {
    || pos >= |sections|
    || (pos > 0 && match sections[pos - 1]
                   case Index => true
                   case BrokenBody => true
                   case Broken => true
                   case ChunkHeader(chunkBegin, _) => chunkBegin > end
                   case _ => false)
  }

  // What a search does not pass: the index, and what cannot be read.
  predicate Stops(s: Section) {
    s.Index? || s.Broken?
  }

  lemma {:induction false} NextChunkStops(sections: seq<Section>, c: Cursor, skip: bool, begin: nat, end: nat)
    ensures var (c', ok) := NextChunk(sections, c, skip, begin, end);
            && (c'.chunk == c.chunk || c'.chunk == [] || ok)
            && (!ok ==> c.reachEnd || StopsAt(sections, c'.pos, end))
            && forall i :: c.pos <= i < c'.pos && i < |sections| && Stops(sections[i]) ==> !ok && i == c'.pos - 1
    decreases |sections| - c.pos
  {
    if !c.reachEnd && c.pos < |sections| {
      var after := c.(pos := c.pos + 1);
      match sections[c.pos]
      case Channel => NextChunkStops(sections, after, skip, begin, end);
      case ChunkHeader(chunkBegin, chunkEnd) =>
        if chunkBegin <= end { NextChunkStops(sections, after, skip || chunkEnd < begin, begin, end); }
      case ChunkBody(_) => if skip { NextChunkStops(sections, after, false, begin, end); }
      case BrokenBody => if skip { NextChunkStops(sections, after, false, begin, end); }
      case _ =>
    }
  }

  lemma {:induction false} NextChunkInOrder(sections: seq<Section>, c: Cursor, skip: bool, begin: nat, end: nat)
    returns (pre: seq<Message>)
    ensures var (c', ok) := NextChunk(sections, c, skip, begin, end);
            UnreadOf(sections, c) == pre + ((if ok then c'.chunk else []) + UnreadOf(sections, c'))
    decreases |sections| - c.pos
  {
    pre := [];
    if !c.reachEnd && c.pos < |sections| {
      var after := c.(pos := c.pos + 1);
      match sections[c.pos]
      case Channel => pre := NextChunkInOrder(sections, after, skip, begin, end);
      case ChunkHeader(chunkBegin, chunkEnd) =>
        if chunkBegin <= end { pre := NextChunkInOrder(sections, after, skip || chunkEnd < begin, begin, end); }
      case ChunkBody(messages) =>
        if skip {
          var more := NextChunkInOrder(sections, after, false, begin, end);
          var (c', ok) := NextChunk(sections, c, skip, begin, end);
          pre := messages + more;
          PassOver(messages, more, (if ok then c'.chunk else []) + UnreadOf(sections, c'), begin);
        }
      case BrokenBody => if skip { pre := NextChunkInOrder(sections, after, false, begin, end); }
      case _ =>
    }
  }

  lemma RemStep(sections: seq<Section>, c: Cursor)
    requires c.messageIndex < |c.chunk|
    ensures RemOf(sections, c) == [c.chunk[c.messageIndex]] + RemOf(sections, c.(messageIndex := c.messageIndex + 1))
  {
    LeftStep(c.chunk, c.messageIndex, UnreadOf(sections, c));
  }

  lemma {:induction false} NextInChunkInOrder(sections: seq<Section>, c: Cursor, begin: nat, end: nat)
    returns (pre: seq<Message>)
    ensures var (c', m, past) := NextInChunk(c, begin, end);
            && RemOf(sections, c) == pre + ((if m.Some? then [m.value] else []) + RemOf(sections, c'))
            && (past ==> c'.messageIndex < |c'.chunk| && c'.chunk[c'.messageIndex].time > end)
    decreases |c.chunk| - c.messageIndex
  {
    pre := [];
    if c.messageIndex < |c.chunk| {
      var m, after := c.chunk[c.messageIndex], c.(messageIndex := c.messageIndex + 1);
      if m.time <= end {
        RemStep(sections, c);
        if m.time < begin {
          var more := NextInChunkInOrder(sections, after, begin, end);
          var (c', found, _) := NextInChunk(after, begin, end);
          PassOver([m], more, (if found.Some? then [found.value] else []) + RemOf(sections, c'), begin);
          pre := [m] + more;
        }
      }
    }
  }

  lemma JoinSkipped(before: seq<Message>, pre: seq<Message>, middle: seq<Message>, skipped: seq<Message>,
                    next: seq<Message>, more: seq<Message>, tail: seq<Message>)
    requires before == pre + middle && middle == skipped + next && next == more + tail
    ensures before == (pre + (skipped + more)) + tail
  {
  }

  // A chunk that is used up leaves what is unread, and a new one comes before the rest.
  lemma UsedUp(sections: seq<Section>, c: Cursor)
    ensures c.messageIndex >= |c.chunk| ==> RemOf(sections, c) == UnreadOf(sections, c)
    ensures RemOf(sections, c.(messageIndex := 0)) == c.chunk + UnreadOf(sections, c)
  {
  }

  /** Over any file, broken or not, a read returns a message that was left, and leaves
      only what comes after it: nothing is invented, repeated or reordered. */
  lemma {:induction false} NextMessageInOrder(sections: seq<Section>, c: Cursor, begin: nat, end: nat)
    returns (pre: seq<Message>)
    ensures var (c', m) := NextMessage(sections, c, begin, end);
            RemOf(sections, c) == pre + ((if m.Some? then [m.value] else []) + RemOf(sections, c'))
    decreases |sections| - c.pos, 1
  {
    var (c1, m, past) := NextInChunk(c, begin, end);
    pre := NextInChunkInOrder(sections, c, begin, end);
    if m == None && !past {
      pre := NextMessageGoesOn(sections, c, c1, pre, begin, end);
    }
  }

  lemma {:induction false} NextMessageGoesOn(sections: seq<Section>, c: Cursor, c1: Cursor, pre: seq<Message>,
                                             begin: nat, end: nat) returns (all: seq<Message>)
    requires NextInChunk(c, begin, end) == (c1, None, false)
    requires RemOf(sections, c) == pre + ([] + RemOf(sections, c1))
    ensures var (c', m) := NextMessage(sections, c, begin, end);
            RemOf(sections, c) == all + ((if m.Some? then [m.value] else []) + RemOf(sections, c'))
    decreases |sections| - c.pos, 0
  {
    var (c2, ok) := NextChunk(sections, c1, false, begin, end);
    var skipped := NextChunkInOrder(sections, c1, false, begin, end);
    NextChunkStops(sections, c1, false, begin, end);
    UsedUp(sections, c1);
    UsedUp(sections, c2);
    assert [] + RemOf(sections, c1) == RemOf(sections, c1);
    if ok {
      var next := c2.(messageIndex := 0);
      var more := NextMessageInOrder(sections, next, begin, end);
      var (c', m) := NextMessage(sections, next, begin, end);
      JoinSkipped(RemOf(sections, c), pre, RemOf(sections, c1), skipped, RemOf(sections, next), more,
                  (if m.Some? then [m.value] else []) + RemOf(sections, c'));
      all := pre + (skipped + more);
    } else {
      var rest := RemOf(sections, c2);
      assert [] + UnreadOf(sections, c2) == rest && [] + rest == rest;
      JoinSkipped(RemOf(sections, c), pre, RemOf(sections, c1), skipped, rest, [], rest);
      all := pre + (skipped + []);
    }
  }

  /** A read gives nothing only because a message past the window comes next, the file or
      its chunks have ended, or the last section it took is past the window or cannot be
      read; and it never goes past the index or a section that cannot be read. */
  lemma {:induction false} NextMessageStops(sections: seq<Section>, c: Cursor, begin: nat, end: nat)
    ensures var (c', m) := NextMessage(sections, c, begin, end);
            && (m == None ==>
                  || (c'.messageIndex < |c'.chunk| && c'.chunk[c'.messageIndex].time > end)
                  || c'.reachEnd || StopsAt(sections, c'.pos, end))
            && forall i :: c.pos <= i < c'.pos && i < |sections| && Stops(sections[i]) ==> m == None && i == c'.pos - 1
    decreases |sections| - c.pos
  {
    var (c1, m, past) := NextInChunk(c, begin, end);
    var early := NextInChunkInOrder(sections, c, begin, end);
    if m == None && !past {
      var (c2, ok) := NextChunk(sections, c1, false, begin, end);
      NextChunkStops(sections, c1, false, begin, end);
      if ok { NextMessageStops(sections, c2.(messageIndex := 0), begin, end); }
    }
  }

  class Reader {
    const sections: seq<Section>
    const isValid: bool
    const headerBegin: nat
    const headerEnd: nat
    var pos: nat
    var reachEnd: bool
    var chunk: seq<Message>
    var messageIndex: nat

    constructor (sections: seq<Section>, isValid: bool, headerBegin: nat, headerEnd: nat)
      ensures this.sections == sections && this.isValid == isValid
      ensures this.headerBegin == headerBegin && this.headerEnd == headerEnd
      ensures Rem() == All() && View() == START
    {
      this.sections, this.isValid := sections, isValid;
      this.headerBegin, this.headerEnd := headerBegin, headerEnd;
      pos, reachEnd, chunk, messageIndex := 0, false, [], 0;
    }

    function View(): Cursor
      reads this
    {
      Cursor(pos, reachEnd, chunk, messageIndex)
    }

    // The messages of the file, in file order.
    function All(): seq<Message> {
      Bodies(sections, 0)
    }

    ghost predicate Accurate() {
      WellFormed(sections, headerBegin, headerEnd)
    }

    // What has not been returned or passed over.
    function Rem(): seq<Message>
      reads this
    {
      RemOf(sections, View())
    }

    method Reset()
      modifies this
      ensures Rem() == All() && View() == START
    {
      pos := 0;
      reachEnd := false;
      messageIndex := 0;
      chunk := [];
    }

    /** Finds the next chunk that may hold messages of the window. Chunks that end
        before it are skipped; a chunk that begins after it stays unread, although
        its header has been consumed. */
    method ReadNextChunk(begin: nat, end: nat) returns (ok: bool)
      modifies this`pos, this`reachEnd, this`chunk
      ensures (View(), ok) == NextChunk(sections, old(View()), false, begin, end)
    {
      var skipNextChunkBody := false;
      while !reachEnd
        invariant old(pos) <= pos && messageIndex == old(messageIndex)
        invariant NextChunk(sections, View(), skipNextChunkBody, begin, end) ==
                  NextChunk(sections, old(View()), false, begin, end)
        decreases |sections| - pos, !reachEnd
      {
        if pos >= |sections| {
          return false;
        }
        var section := sections[pos];
        pos := pos + 1;
        match section {
          case Index =>
            reachEnd := true;
          case Channel =>
          case ChunkHeader(headerBegin, headerEnd) =>
            if headerEnd < begin {
              skipNextChunkBody := true;
            }
            if headerBegin > end {
              return false;
            }
          case ChunkBody(messages) =>
            if skipNextChunkBody {
              skipNextChunkBody := false;
            } else {
              chunk := messages;
              return true;
            }
          case BrokenBody =>
            if skipNextChunkBody {
              skipNextChunkBody := false;
            } else {
              chunk := [];
              return false;
            }
          case Broken =>
            return false;
        }
      }
      return false;
    }

    // The file header alone says that the window holds nothing.
    predicate OutOfRange(begin: nat, end: nat) {
      !isValid || begin > headerEnd || end < headerBegin
    }

    // The loop over the current chunk: a message of the window, or the first one
    // past it (`past`), or neither.
    method ReadFromChunk(begin: nat, end: nat) returns (message: Option<Message>, past: bool)
      modifies this`messageIndex
      ensures (View(), message, past) == NextInChunk(old(View()), begin, end)
    {
      while messageIndex < |chunk|
        invariant NextInChunk(View(), begin, end) == NextInChunk(old(View()), begin, end)
      {
        var nextMessage := chunk[messageIndex];
        var time := nextMessage.time;
        if time > end {
          return None, true;
        }
        messageIndex := messageIndex + 1;
        if time < begin {
          continue;
        }
        return Some(nextMessage), false;
      }
      return None, false;
    }

    // What reading a window until nothing comes gives.
    function WindowOf(c: Cursor, begin: nat, end: nat): (Cursor, seq<Message>) {
      if OutOfRange(begin, end) then (c, []) else WindowFrom(sections, c, begin, end)
    }

    // It begins with the next message.
    lemma WindowOfStep(c: Cursor, c1: Cursor, m: Option<Message>, begin: nat, end: nat)
      requires if OutOfRange(begin, end) then m == None && c1 == c else (c1, m) == NextMessage(sections, c, begin, end)
      ensures m == None ==> WindowOf(c, begin, end) == (c1, [])
      ensures m.Some? ==> WindowOf(c, begin, end) ==
                          (WindowOf(c1, begin, end).0, [m.value] + WindowOf(c1, begin, end).1)
    {
    }

    /** Returns the next message of the closed window [begin, end], if there is one
        before the first message past `end`. Over an accurate file this is exactly
        the next element of the window that remains, and what lies past the window
        is left unread for the windows to come; over any file the answer depends on
        nothing but the state of the reader. */
    method ReadMessage(begin: nat, end: nat) returns (message: Option<Message>)
      modifies this`pos, this`reachEnd, this`chunk, this`messageIndex
      ensures message.Some? ==> begin <= message.value.time <= end
      ensures !isValid || begin > headerEnd || end < headerBegin ==> message == None && View() == old(View())
      ensures isValid && begin <= headerEnd && headerBegin <= end ==>
                (View(), message) == NextMessage(sections, old(View()), begin, end)
      ensures Accurate() && begin <= end && !OutOfRange(begin, end) ==>
                Reads(old(Rem()), message, Rem(), begin, end)
      decreases |sections| - pos
    {
      if OutOfRange(begin, end) {
        return None;
      }
      ghost var before := View();
      if Accurate() && begin <= end {
        NextMessageMeans(sections, before, begin, end, headerBegin, headerEnd);
      }
      NextMessageInWindow(sections, before, begin, end);
      var past;
      message, past := ReadFromChunk(begin, end);
      if message.Some? || past {
        return;
      }
      var ok := ReadNextChunk(begin, end);
      if !ok {
        return;
      }
      messageIndex := 0;
      message := ReadMessage(begin, end);
    }
  }

  // The loop of a caller over one window.
  method ReadWindow(reader: Reader, begin: nat, end: nat) returns (got: seq<Message>)
    modifies reader
    ensures (reader.View(), got) == reader.WindowOf(old(reader.View()), begin, end)
  {
    ghost var all := reader.WindowOf(reader.View(), begin, end);
    got := [];
    while true
      invariant all.0 == reader.WindowOf(reader.View(), begin, end).0
      invariant all.1 == got + reader.WindowOf(reader.View(), begin, end).1
      decreases |reader.sections| - reader.pos, |reader.chunk| - reader.messageIndex
    {
      ghost var before := reader.View();
      var message := reader.ReadMessage(begin, end);
      reader.WindowOfStep(before, reader.View(), message, begin, end);
      if message == None {
        assert got + [] == got;
        return;
      }
      PassOver(got, [message.value], reader.WindowOf(reader.View(), begin, end).1, end + 1);
      got := got + [message.value];
    }
  }

  // The header speaks for every message of an accurate file.
  lemma OutOfRangeMeans(reader: Reader, pre: seq<Message>, rem: seq<Message>, begin: nat, end: nat)
    requires reader.Accurate() && reader.isValid && begin <= end && reader.All() == pre + rem
    requires reader.OutOfRange(begin, end)
    ensures Window(rem, begin, end) == []
  {
    BodiesWithin(reader.sections, 0, reader.headerBegin, reader.headerEnd);
    forall k | 0 <= k < |rem| ensures reader.headerBegin <= rem[k].time <= reader.headerEnd {
      assert rem[k] == reader.All()[|pre| + k];
    }
    if begin > reader.headerEnd {
      EarlyPrefix(rem, [], begin, end);
      assert rem + [] == rem;
    }
  }

  // One window after others: it returns what it would alone, and passes nothing later.
  lemma WindowInTurn(reader: Reader, c: Cursor, pre: seq<Message>, w: TimeWindow) returns (passed: seq<Message>)
    requires reader.Accurate() && reader.isValid && w.begin <= w.end
    requires reader.All() == pre + RemOf(reader.sections, c) && Before(pre, w.begin)
    ensures var (c', got) := reader.WindowOf(c, w.begin, w.end);
            && got == Window(reader.All(), w.begin, w.end)
            && reader.All() == passed + RemOf(reader.sections, c') && Before(passed, w.end + 1)
  {
    var rem := RemOf(reader.sections, c);
    EarlyPrefix(pre, rem, w.begin, w.end);
    if reader.OutOfRange(w.begin, w.end) {
      OutOfRangeMeans(reader, pre, rem, w.begin, w.end);
      passed := pre;
    } else {
      WindowFromMeans(reader.sections, c, w.begin, w.end, reader.headerBegin, reader.headerEnd);
      var more := RestSplits(rem, w.end);
      passed := pre + more;
    }
  }

  /** Consecutive windows, whatever their widths and the gaps between them: over an
      accurate file each returns what it would return alone, which for a file in time
      order is every message of the window, once and in file order. */
  method ReadWindows(reader: Reader, ws: seq<TimeWindow>) returns (out: seq<seq<Message>>)
    requires Consecutive(ws) && reader.View() == START
    modifies reader
    ensures |out| == |ws|
    ensures reader.Accurate() && reader.isValid ==>
              forall i :: 0 <= i < |ws| ==> out[i] == Window(reader.All(), ws[i].begin, ws[i].end)
    ensures reader.Accurate() && reader.isValid && Sorted(reader.All()) ==>
              forall i :: 0 <= i < |ws| ==> out[i] == InRange(reader.All(), ws[i].begin, ws[i].end)
    ensures !reader.isValid ==> forall i :: 0 <= i < |ws| ==> out[i] == []
  {
    out := [];
    ghost var pre: seq<Message> := [];
    ghost var exact := reader.Accurate() && reader.isValid;
    while |out| < |ws|
      invariant |out| <= |ws|
      invariant exact ==> reader.All() == pre + RemOf(reader.sections, reader.View())
      invariant exact ==> forall i :: |out| <= i < |ws| ==> Before(pre, ws[i].begin)
      invariant exact ==>
                  forall i :: 0 <= i < |out| ==> out[i] == Window(reader.All(), ws[i].begin, ws[i].end)
      invariant !reader.isValid ==> forall i :: 0 <= i < |out| ==> out[i] == []
      decreases |ws| - |out|
    {
      var w := ws[|out|];
      if exact {
        pre := WindowInTurn(reader, reader.View(), pre, w);
      }
      var got := ReadWindow(reader, w.begin, w.end);
      out := out + [got];
    }
    if exact && Sorted(reader.All()) {
      forall i | 0 <= i < |ws| ensures out[i] == InRange(reader.All(), ws[i].begin, ws[i].end) {
        WindowReturnsAll(reader.All(), ws[i].begin, ws[i].end);
      }
    }
  }
}
