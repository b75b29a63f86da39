// Reassembly of requests and responses from the chunks of QUIC streams.
module Streams {
  import opened Prelude
  import opened Bytes

  /** A header parser's verdict on what has arrived of a stream. */
  datatype Parsed<+H> = Incomplete | Header(header: H, offset: nat) | Malformed

  type Parser<!H> = seq<Byte> -> Parsed<H>

  /** A header, once complete, stays the same whatever follows it. */
  ghost predicate PrefixStable<H(!new)>(p: Parser<H>) {
    forall s: seq<Byte>, t: seq<Byte> :: p(s).Header? ==> p(s).offset <= |s| && p(s + t) == p(s)
  }

  /** A request or response object: what has been fed to it and how its input was finished. */
  datatype Message<+H> = Message(header: H, payload: seq<Byte>, finished: Option<bool>)

  /** What is held for one stream, and the messages whose input is finished. */
  datatype Slot<+H> = Slot(buffer: Option<seq<Byte>>, live: Option<Message<H>>, past: seq<Message<H>>)

  datatype Chunk = Chunk(data: seq<Byte>, end: bool)

  function Tail(s: seq<Byte>, offset: nat): seq<Byte> {
    if offset <= |s| then s[offset..] else []
  }

  function Finished<H>(m: Message<H>, ok: bool): Message<H> {
    m.(finished := Some(ok))
  }

  /** The slot after a chunk, and the message reported to the caller. */
  function Feed<H>(p: Parser<H>, slot: Slot<H>, c: Chunk): (Slot<H>, Result<Option<H>>) {
    if slot.live.Some? then
      var m := slot.live.value.(payload := slot.live.value.payload + c.data);
      (if c.end then Slot(slot.buffer, None, slot.past + [Finished(m, true)]) else slot.(live := Some(m)), Ok(None))
    else
      var buffered := (if slot.buffer.Some? then slot.buffer.value else []) + c.data;
      match p(buffered)
      case Incomplete => (slot.(buffer := if c.end then None else Some(buffered)), Ok(None))
      case Malformed => (slot.(buffer := Some(buffered)), Err("malformed header"))
      case Header(h, offset) =>
        var m := Message(h, Tail(buffered, offset), None);
        (if c.end then Slot(None, None, slot.past + [Finished(m, true)]) else Slot(None, Some(m), slot.past),
         Ok(Some(h)))
  }

  function Reset<H>(slot: Slot<H>): Slot<H> {
    Slot(None, None, if slot.live.Some? then slot.past + [Finished(slot.live.value, false)] else slot.past)
  }

  datatype StreamEvent = Data(chunk: Chunk) | StreamReset

  function Step<H>(p: Parser<H>, slot: Slot<H>, e: StreamEvent): Slot<H> {
    match e
    case Data(c) => Feed(p, slot, c).0
    case StreamReset => Reset(slot)
  }

  function Fold<H>(p: Parser<H>, slot: Slot<H>, events: seq<StreamEvent>): Slot<H>
    decreases |events|
  {
    if events == [] then slot else Step(p, Fold(p, slot, events[..|events| - 1]), events[|events| - 1])
  }

  /** The events of one stream. */
  function Projection<E>(events: seq<(nat, E)>, id: nat): seq<E> {
    if events == [] then []
    else
      var earlier := Projection(events[..|events| - 1], id);
      if events[|events| - 1].0 == id then earlier + [events[|events| - 1].1] else earlier
  }

  // ----- the tables of a protocol object -----

  /** The buffers and stream states a connection keeps; requests and responses are reassembled alike. */
  class Reassembly<H> {
    var buffer: map<nat, seq<Byte>>
    var streams: map<nat, Message<H>>
    var past: map<nat, seq<Message<H>>>

    constructor ()
      ensures forall id :: SlotOf(id) == Slot(None, None, [])
    {
      buffer, streams, past := map[], map[], map[];
    }

    function Past(id: nat): seq<Message<H>>
      reads this
    {
      if id in past then past[id] else []
    }

    function SlotOf(id: nat): Slot<H>
      reads this
    {
      Slot(if id in buffer then Some(buffer[id]) else None, if id in streams then Some(streams[id]) else None, Past(id))
    }

    method FeedStream(parser: Parser<H>, id: nat, data: seq<Byte>, end: bool) returns (r: Result<Option<H>>)
      modifies this
      ensures (SlotOf(id), r) == Feed(parser, old(SlotOf(id)), Chunk(data, end))
      ensures forall other :: other != id ==> SlotOf(other) == old(SlotOf(other))
    {
      if id !in streams {
        if id !in buffer {
          buffer := buffer[id := []];
        }
        buffer := buffer[id := buffer[id] + data];
        var header := parser(buffer[id]);
        match header {
          case Incomplete =>
            if end {
              buffer := buffer - {id};
            }
            return Ok(None);
          case Malformed =>
            return Err("malformed header");
          case Header(h, offset) =>
            StartRequest(id, h, offset, end);
            return Ok(Some(h));
        }
      }
      FeedMore(parser, id, data, end);
      return Ok(None);
    }

    /** The header is complete; what follows it in the buffer is payload. */
    method StartRequest(id: nat, h: H, offset: nat, end: bool)
      requires id in buffer && id !in streams
      modifies this
      ensures var m := Message(h, Tail(old(buffer)[id], offset), None);
              SlotOf(id) == if end then Slot(None, None, old(Past(id)) + [Finished(m, true)])
                            else Slot(None, Some(m), old(Past(id)))
      ensures forall other :: other != id ==> SlotOf(other) == old(SlotOf(other))
    {
      var request := Message(h, [], None);
      var tail := Tail(buffer[id], offset);
      assert request.payload + tail == tail;
      if tail != [] {
        request := request.(payload := request.payload + tail);
      }
      buffer := buffer - {id};
      streams := streams[id := request];
      if end {
        past := past[id := Past(id) + [Finished(request, true)]];
        streams := streams - {id};
      }
    }

    /** A chunk of a stream whose header is complete. */
    method FeedMore(ghost parser: Parser<H>, id: nat, data: seq<Byte>, end: bool)
      requires id in streams
      modifies this`streams, this`past
      ensures SlotOf(id) == Feed(parser, old(SlotOf(id)), Chunk(data, end)).0
      ensures forall other :: other != id ==> SlotOf(other) == old(SlotOf(other))
    {
      var request := streams[id];
      if data != [] {
        request := request.(payload := request.payload + data);
        streams := streams[id := request];
      } else {
        assert request.payload + data == request.payload;
      }
      if end {
        past := past[id := Past(id) + [Finished(request, true)]];
        streams := streams - {id};
      }
    }

    method OnReset(id: nat)
      modifies this
      ensures SlotOf(id) == Reset(old(SlotOf(id)))
      ensures forall other :: other != id ==> SlotOf(other) == old(SlotOf(other))
    {
      if id in streams {
        past := past[id := Past(id) + [Finished(streams[id], false)]];
        streams := streams - {id};
      }
      buffer := buffer - {id};
    }

    /** A stream whose header cannot be parsed is forgotten. */
    method Forget(id: nat)
      modifies this`buffer, this`streams
      ensures SlotOf(id) == old(SlotOf(id)).(buffer := None, live := None)
      ensures forall other :: other != id ==> SlotOf(other) == old(SlotOf(other))
    {
      buffer := buffer - {id};
      streams := streams - {id};
    }

    method OnEvent(parser: Parser<H>, id: nat, e: StreamEvent)
      modifies this
      ensures SlotOf(id) == Step(parser, old(SlotOf(id)), e)
      ensures forall other :: other != id ==> SlotOf(other) == old(SlotOf(other))
    {
      match e {
        case Data(c) =>
          var r := FeedStream(parser, id, c.data, c.end);
        case StreamReset =>
          OnReset(id);
      }
    }

    /** Events of many streams, interleaved in any way: each stream is left as its own events leave it. */
    method Receive(parser: Parser<H>, events: seq<(nat, StreamEvent)>)
      modifies this
      ensures forall id :: SlotOf(id) == Fold(parser, old(SlotOf(id)), Projection(events, id))
    {
      var i := 0;
      while i < |events|
        invariant 0 <= i <= |events|
        invariant forall id :: SlotOf(id) == Fold(parser, old(SlotOf(id)), Projection(events[..i], id))
      {
        var (id, e) := events[i];
        ProjectionNext(events, i);
        FoldSnoc(parser, old(SlotOf(id)), Projection(events[..i], id), e);
        OnEvent(parser, id, e);
        i := i + 1;
      }
      assert events[..|events|] == events;
    }
  }

  lemma ProjectionAt<E>(events: seq<(nat, E)>, i: nat, id: nat)
    requires i < |events|
    ensures Projection(events[..i + 1], id) ==
            if id == events[i].0 then Projection(events[..i], id) + [events[i].1] else Projection(events[..i], id)
  {
    assert events[..i + 1][..i] == events[..i];
  }

  lemma ProjectionNext<E>(events: seq<(nat, E)>, i: nat)
    requires i < |events|
    ensures forall id :: Projection(events[..i + 1], id) ==
                         if id == events[i].0 then Projection(events[..i], id) + [events[i].1]
                         else Projection(events[..i], id)
  {
    forall id: nat { ProjectionAt(events, i, id); }
  }

  // ----- chunking does not matter -----

  function Empty<H>(): Slot<H> {
    Slot(None, None, [])
  }

  function BytesOf(chunks: seq<Chunk>): seq<Byte> {
    if chunks == [] then [] else BytesOf(chunks[..|chunks| - 1]) + chunks[|chunks| - 1].data
  }

  /** QUIC delivers nothing after the end of a stream. */
  predicate Framed(chunks: seq<Chunk>) {
    forall i :: 0 <= i < |chunks| - 1 ==> !chunks[i].end
  }

  predicate Ended(chunks: seq<Chunk>) {
    chunks != [] && chunks[|chunks| - 1].end
  }

  function DataEvents(chunks: seq<Chunk>): (events: seq<StreamEvent>)
    ensures |events| == |chunks|
  {
    seq(|chunks|, i requires 0 <= i < |chunks| => Data(chunks[i]))
  }

  /** What a stream leaves, told from its bytes alone: its one message holds exactly what follows the header. A stream
      on which the parser raises keeps its buffer, ended or not. */
  function Outcome<H>(p: Parser<H>, data: seq<Byte>, started: bool, ended: bool): Slot<H> {
    if !started then Empty()
    else
      match p(data)
      case Header(h, offset) =>
        var m := Message(h, Tail(data, offset), None);
        if ended then Slot(None, None, [Finished(m, true)]) else Slot(None, Some(m), [])
      case Incomplete => Slot(if ended then None else Some(data), None, [])
      case Malformed => Slot(Some(data), None, [])
  }

  lemma FoldSnoc<H>(p: Parser<H>, slot: Slot<H>, events: seq<StreamEvent>, e: StreamEvent)
    ensures Fold(p, slot, events + [e]) == Step(p, Fold(p, slot, events), e)
  {
    assert (events + [e])[..|events|] == events;
  }

  /** Any split of a stream into chunks, including empty ones, leaves what its bytes determine. */
  lemma {:induction false} ChunkingIrrelevant<H(!new)>(p: Parser<H>, chunks: seq<Chunk>)
    requires PrefixStable(p) && Framed(chunks)
    ensures Fold(p, Empty(), DataEvents(chunks)) == Outcome(p, BytesOf(chunks), chunks != [], Ended(chunks))
    decreases |chunks|
  {
    if chunks != [] {
      var earlier, c := chunks[..|chunks| - 1], chunks[|chunks| - 1];
      var before, data := BytesOf(earlier), BytesOf(chunks);
      assert data == before + c.data;
      ChunkingIrrelevant(p, earlier);
      assert DataEvents(chunks) == DataEvents(earlier) + [Data(c)];
      FoldSnoc(p, Empty(), DataEvents(earlier), Data(c));
      LastChunk(p, earlier, c);
    }
  }

  /** One more chunk, before or after the header has become complete. */
  lemma LastChunk<H(!new)>(p: Parser<H>, earlier: seq<Chunk>, c: Chunk)
    requires PrefixStable(p) && Framed(earlier + [c]) && !Ended(earlier)
    ensures Feed(p, Outcome(p, BytesOf(earlier), earlier != [], false), c).0
            == Outcome(p, BytesOf(earlier) + c.data, true, c.end)
  {
    var before := BytesOf(earlier);
    if p(before).Header? && earlier != [] {
      assert p(before + c.data) == p(before);
      assert Tail(before, p(before).offset) + c.data == Tail(before + c.data, p(before).offset);
    } else if earlier == [] {
      assert before + c.data == c.data;
    }
  }

  /** Requests are equal however their streams were cut and interleaved with others, and an ended stream leaves no
      entry exactly when the parser does not raise on it. */
  lemma AnySplitAnyInterleaving<H(!new)>(
    p: Parser<H>, events1: seq<(nat, StreamEvent)>, events2: seq<(nat, StreamEvent)>, id: nat,
    chunks1: seq<Chunk>, chunks2: seq<Chunk>)
    requires PrefixStable(p) && Framed(chunks1) && Framed(chunks2)
    requires Projection(events1, id) == DataEvents(chunks1) && Projection(events2, id) == DataEvents(chunks2)
    requires BytesOf(chunks1) == BytesOf(chunks2) && Ended(chunks1) && Ended(chunks2)
    ensures Fold(p, Empty(), Projection(events1, id)) == Fold(p, Empty(), Projection(events2, id))
    ensures var slot := Fold(p, Empty(), Projection(events1, id));
            slot.live.None? && (slot.buffer.None? <==> !p(BytesOf(chunks1)).Malformed?)
  {
    ChunkingIrrelevant(p, chunks1);
    ChunkingIrrelevant(p, chunks2);
  }

  /** The headers reported to the caller, chunk by chunk. */
  function Reports<H>(p: Parser<H>, chunks: seq<Chunk>): seq<H>
    decreases |chunks|
  {
    if chunks == [] then []
    else
      var earlier := chunks[..|chunks| - 1];
      var r := Feed(p, Fold(p, Empty(), DataEvents(earlier)), chunks[|chunks| - 1]).1;
      Reports(p, earlier) + (if r.Ok? && r.value.Some? then [r.value.value] else [])
  }

  /** One request is reported as soon as the bytes so far hold a header, and never another. */
  lemma {:induction false} ReportedOnce<H(!new)>(p: Parser<H>, chunks: seq<Chunk>)
    requires PrefixStable(p) && Framed(chunks)
    ensures Reports(p, chunks) == if chunks != [] && p(BytesOf(chunks)).Header? then [p(BytesOf(chunks)).header] else []
    decreases |chunks|
  {
    if chunks != [] {
      var earlier, c := chunks[..|chunks| - 1], chunks[|chunks| - 1];
      var before, data := BytesOf(earlier), BytesOf(chunks);
      ReportedOnce(p, earlier);
      ChunkingIrrelevant(p, earlier);
      if earlier == [] {
        assert before + c.data == c.data;
      }
    }
  }

  /** A reset finishes what was begun as incomplete and leaves nothing. */
  lemma ResetOutcome<H(!new)>(p: Parser<H>, chunks: seq<Chunk>)
    requires PrefixStable(p) && Framed(chunks) && !Ended(chunks) && chunks != []
    ensures Fold(p, Empty(), DataEvents(chunks) + [StreamReset]) ==
            (match p(BytesOf(chunks))
             case Header(h, offset) => Slot(None, None, [Message(h, Tail(BytesOf(chunks), offset), Some(false))])
             case _ => Empty())
  {
    ChunkingIrrelevant(p, chunks);
    FoldSnoc(p, Empty(), DataEvents(chunks), StreamReset);
  }

  /** A stream that holds a header has one message, live, finished or reset: it has that header, and its payload is what
      stands behind the header in the stream's bytes, however they were cut. */
  lemma PayloadExactly<H(!new)>(p: Parser<H>, chunks: seq<Chunk>)
    requires PrefixStable(p) && Framed(chunks) && chunks != [] && p(BytesOf(chunks)).Header?
    ensures var data, header, offset := BytesOf(chunks), p(BytesOf(chunks)).header, p(BytesOf(chunks)).offset;
            var slot := Fold(p, Empty(), DataEvents(chunks));
            && offset <= |data| && slot.buffer == None
            && (Ended(chunks) ==> slot.live == None && slot.past == [Message(header, data[offset..], Some(true))])
            && (!Ended(chunks) ==>
                  && slot.live == Some(Message(header, data[offset..], None)) && slot.past == []
                  && Fold(p, Empty(), DataEvents(chunks) + [StreamReset])
                     == Slot(None, None, [Message(header, data[offset..], Some(false))]))
  {
    ChunkingIrrelevant(p, chunks);
    FoldSnoc(p, Empty(), DataEvents(chunks), StreamReset);
    assert p(BytesOf(chunks) + []) == p(BytesOf(chunks));
  }

  /** A stream without a header has no message; what it brought is kept until it ends, and beyond its end when the
      parser raises on it. */
  lemma NoMessageWithoutHeader<H(!new)>(p: Parser<H>, chunks: seq<Chunk>)
    requires PrefixStable(p) && Framed(chunks) && chunks != [] && !p(BytesOf(chunks)).Header?
    ensures var slot := Fold(p, Empty(), DataEvents(chunks));
            && slot.live == None && slot.past == []
            && slot.buffer == (if Ended(chunks) && p(BytesOf(chunks)).Incomplete? then None else Some(BytesOf(chunks)))
  {
    ChunkingIrrelevant(p, chunks);
  }

  /** Messages that are finished stay as they are; an event finishes at most one more. */
  lemma PastStays<H>(p: Parser<H>, slot: Slot<H>, e: StreamEvent)
    ensures slot.past <= Step(p, slot, e).past && |Step(p, slot, e).past| <= |slot.past| + 1
  {
  }
}
