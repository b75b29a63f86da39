// The client's side of QUIC streams: responses to its requests, and requests the server sends it.
module ClientStreams {
  import opened Prelude
  import opened Bytes
  import opened Streams

  /** The future of a request; it is settled once. */
  datatype Future<+H> = Pending | Resolved(header: H) | Failed

  function Resolve<H>(f: Future<H>, h: H): Future<H> {
    if f.Pending? then Resolved(h) else f
  }

  function Fail<H>(f: Future<H>): Future<H> {
    if f.Pending? then Failed else f
  }

  /** What the client holds for one stream, and the futures it has let go of. */
  datatype Exchange<+H> = Exchange(slot: Slot<H>, handler: Option<Future<H>>, released: seq<Future<H>>)

  datatype ClientEvent = Asked | Arrived(chunk: Chunk) | WasReset | TimedOut

  datatype Parsers<!H> = Parsers(request: Parser<H>, response: Parser<H>, serves: bool)

  function Released<H>(x: Exchange<H>, f: Future<H>): Exchange<H> {
    x.(handler := None, released := x.released + [f])
  }

  /** A chunk on a stream that has not timed out. */
  function Received<H>(p: Parsers<H>, x: Exchange<H>, c: Chunk): Exchange<H> {
    if x.handler.None? then
      if p.serves then x.(slot := Feed(p.request, x.slot, c).0) else x
    else
      var (slot, r) := Feed(p.response, x.slot, c);
      if r.Err? then Released(x, Fail(x.handler.value)).(slot := slot.(buffer := None, live := None))
      else
        var f := if r.value.Some? then Resolve(x.handler.value, r.value.value) else x.handler.value;
        if c.end && (x.slot.live.Some? || r.value.Some?) then Released(x, f).(slot := slot)
        else x.(slot := slot, handler := Some(f))
  }

  /** Apart from muting later chunks, what an event does to its stream. */
  function Move<H>(p: Parsers<H>, x: Exchange<H>, muted: bool, e: ClientEvent): Exchange<H> {
    match e
    case Asked => x.(handler := Some(Pending))
    case Arrived(c) => if muted then x else Received(p, x, c)
    case WasReset =>
      var y := x.(slot := Reset(x.slot));
      if x.handler.Some? then Released(y, Fail(x.handler.value)) else y
    case TimedOut =>
      var y := x.(slot := Reset(x.slot));
      if x.handler.Some? then Released(y, x.handler.value) else y
  }

  const MUTED_LIMIT := 8192

  /** The streams whose later chunks are ignored. */
  function Muted(muted: set<nat>, id: nat, e: ClientEvent): set<nat> {
    match e
    case TimedOut => if |muted + {id}| > MUTED_LIMIT then {} else muted + {id}
    case Arrived(c) => if c.end then muted - {id} else muted
    case _ => muted
  }

  class ClientCore<H> {
    const parsers: Parsers<H>
    const incoming: Reassembly<H>
    var inflight: map<nat, Future<H>>
    var released: map<nat, seq<Future<H>>>
    var timedOut: set<nat>

    constructor (parsers: Parsers<H>)
      ensures this.parsers == parsers && fresh(incoming) && timedOut == {}
      ensures forall id :: ExchangeOf(id) == Exchange(Empty(), None, [])
    {
      this.parsers := parsers;
      incoming := new Reassembly();
      inflight, released, timedOut := map[], map[], {};
    }

    function ReleasedOf(id: nat): seq<Future<H>>
      reads this
    {
      if id in released then released[id] else []
    }

    function ExchangeOf(id: nat): Exchange<H>
      reads this, incoming
    {
      Exchange(incoming.SlotOf(id), if id in inflight then Some(inflight[id]) else None, ReleasedOf(id))
    }

    /** The future leaves the table of requests in flight. */
    method PopInflight(id: nat, f: Future<H>)
      requires id in inflight
      modifies this`inflight, this`released
      ensures inflight == old(inflight) - {id} && released == old(released)[id := old(ReleasedOf(id)) + [f]]
    {
      released := released[id := ReleasedOf(id) + [f]];
      inflight := inflight - {id};
    }

    method FeedIncomingResponse(id: nat, c: Chunk) returns (r: Result<Option<H>>)
      requires id in inflight
      modifies this`inflight, this`released, incoming
      ensures (incoming.SlotOf(id), r) == Feed(parsers.response, old(incoming.SlotOf(id)), c)
      ensures forall other :: other != id ==> incoming.SlotOf(other) == old(incoming.SlotOf(other))
      ensures var f := old(inflight)[id];
              var g := if r.Ok? && r.value.Some? then Resolve(f, r.value.value) else f;
              if r.Ok? && c.end && (old(incoming.SlotOf(id)).live.Some? || r.value.Some?)
              then inflight == old(inflight) - {id} && released == old(released)[id := old(ReleasedOf(id)) + [g]]
              else inflight == old(inflight)[id := g] && released == old(released)
    {
      var known := id in incoming.streams;
      r := incoming.FeedStream(parsers.response, id, c.data, c.end);
      var f := inflight[id];
      if r.Ok? && r.value.Some? {
        f := Resolve(f, r.value.value);
      }
      inflight := inflight[id := f];
      if r.Ok? && c.end && (known || r.value.Some?) {
        PopInflight(id, f);
        assert inflight == old(inflight) - {id};
      }
    }

    method OnChunk(id: nat, c: Chunk)
      requires id !in timedOut
      modifies this`inflight, this`released, incoming
      ensures ExchangeOf(id) == Received(parsers, old(ExchangeOf(id)), c)
      ensures forall other :: other != id ==> ExchangeOf(other) == old(ExchangeOf(other))
    {
      if id !in inflight {
        if parsers.serves {
          var request := incoming.FeedStream(parsers.request, id, c.data, c.end);
        }
        return;
      }
      var f := inflight[id];
      var response := FeedIncomingResponse(id, c);
      if response.Err? {
        PopInflight(id, Fail(f));
        incoming.Forget(id);
      }
    }

    method OnEvent(id: nat, e: ClientEvent)
      modifies this, incoming
      ensures ExchangeOf(id) == Move(parsers, old(ExchangeOf(id)), id in old(timedOut), e)
      ensures timedOut == Muted(old(timedOut), id, e)
      ensures forall other :: other != id ==> ExchangeOf(other) == old(ExchangeOf(other))
    {
      match e {
        case Asked =>
          inflight := inflight[id := Pending];
        case Arrived(c) =>
          if id in timedOut {
            if c.end {
              timedOut := timedOut - {id};
            }
          } else {
            OnChunk(id, c);
          }
        case WasReset =>
          incoming.OnReset(id);
          if id in inflight {
            PopInflight(id, Fail(inflight[id]));
          }
        case TimedOut =>
          if id in inflight {
            PopInflight(id, inflight[id]);
          }
          incoming.OnReset(id);
          timedOut := timedOut + {id};
          if |timedOut| > MUTED_LIMIT {
            timedOut := {};
          }
      }
    }

    /** Where a stream stands, and whether its chunks are ignored. */
    function TrackOf(id: nat): Track<H>
      reads this, incoming
    {
      Track(ExchangeOf(id), id in timedOut)
    }

    /** Events of many streams, interleaved in any way: a stream is left as its own events leave it, if it never times
        out, or if the muted streams stay within the limit. */
    method Run(events: seq<(nat, ClientEvent)>, ghost id: nat)
      requires || (id !in timedOut && TimedOut !in Projection(events, id))
               || |timedOut + TimedOutIds(events)| <= MUTED_LIMIT
      modifies this, incoming
      ensures TrackOf(id) == Course(parsers, old(TrackOf(id)), Projection(events, id))
    {
      ghost var start, muted := TrackOf(id), timedOut;
      var i := 0;
      while i < |events|
        invariant 0 <= i <= |events|
        invariant OnTrack(parsers, start, TrackOf(id), muted, timedOut, events[..i], id)
      {
        var (stream, e) := events[i];
        ghost var before, now := TrackOf(id), timedOut;
        OnEvent(stream, e);
        TrackNext(parsers, start, before, TrackOf(id), muted, now, events, id, i);
        i := i + 1;
      }
      assert events[..|events|] == events;
    }
  }

  // ----- one stream at a time -----

  datatype Track<+H> = Track(exchange: Exchange<H>, muted: bool)

  /** An event of the stream itself, as long as muting is not forgotten. */
  function Advance<H>(p: Parsers<H>, t: Track<H>, e: ClientEvent): Track<H> {
    Track(Move(p, t.exchange, t.muted, e),
          match e
          case TimedOut => true
          case Arrived(c) => t.muted && !c.end
          case _ => t.muted)
  }

  function Course<H>(p: Parsers<H>, t: Track<H>, events: seq<ClientEvent>): Track<H>
    decreases |events|
  {
    if events == [] then t else Advance(p, Course(p, t, events[..|events| - 1]), events[|events| - 1])
  }

  lemma CourseSnoc<H>(p: Parsers<H>, t: Track<H>, events: seq<ClientEvent>, e: ClientEvent)
    ensures Course(p, t, events + [e]) == Advance(p, Course(p, t, events), e)
  {
    assert (events + [e])[..|events|] == events;
  }

  lemma CourseNext<H>(p: Parsers<H>, t: Track<H>, events: seq<(nat, ClientEvent)>, id: nat, i: nat)
    requires i < |events|
    ensures Course(p, t, Projection(events[..i + 1], id)) ==
            (var before := Course(p, t, Projection(events[..i], id));
             if events[i].0 == id then Advance(p, before, events[i].1) else before)
  {
    ProjectionAt(events, i, id);
    if events[i].0 == id {
      CourseSnoc(p, t, Projection(events[..i], id), events[i].1);
    }
  }

  /** The streams that time out in the course of the events. */
  function TimedOutIds(events: seq<(nat, ClientEvent)>): set<nat> {
    set i | 0 <= i < |events| && events[i].1.TimedOut? :: events[i].0
  }

  lemma SubsetSize(a: set<nat>, b: set<nat>)
    requires a <= b
    ensures |a| <= |b|
  {
    assert b == a + (b - a);
  }

  /** Within the limit muting is never forgotten. */
  lemma MutedNext(now: set<nat>, muted: set<nat>, events: seq<(nat, ClientEvent)>, i: nat)
    requires i < |events| && now <= muted + TimedOutIds(events[..i])
    ensures Muted(now, events[i].0, events[i].1) <= muted + TimedOutIds(events[..i + 1])
    ensures |muted + TimedOutIds(events)| <= MUTED_LIMIT && events[i].1.TimedOut?
            ==> |now + {events[i].0}| <= MUTED_LIMIT
  {
    forall j | 0 <= j < i && events[j].1.TimedOut? ensures events[j].0 in TimedOutIds(events[..i + 1]) {
      assert events[..i + 1][j] == events[j];
    }
    forall j | 0 <= j <= i && events[j].1.TimedOut? ensures events[j].0 in TimedOutIds(events) {}
    assert events[..i + 1][i] == events[i];
    if events[i].1.TimedOut? {
      assert forall x :: x in TimedOutIds(events[..i]) ==> x in TimedOutIds(events);
      SubsetSize(now + {events[i].0}, muted + TimedOutIds(events));
    }
  }

  lemma {:induction false} ProjectionPrefix<E>(events: seq<(nat, E)>, id: nat, i: nat)
    requires i <= |events|
    ensures Projection(events[..i], id) <= Projection(events, id)
    decreases |events| - i
  {
    if i < |events| {
      ProjectionPrefix(events, id, i + 1);
      ProjectionAt(events, i, id);
    } else {
      assert events[..i] == events;
    }
  }

  /** A stream without a time-out of its own is not muted by the others. */
  lemma {:induction false} NotTimedOut(events: seq<(nat, ClientEvent)>, id: nat, i: nat)
    requires i < |events| && TimedOut !in Projection(events, id)
    ensures events[i].0 == id ==> events[i].1 != TimedOut
    ensures id !in TimedOutIds(events[..i])
    decreases i
  {
    ProjectionAt(events, i, id);
    ProjectionPrefix(events, id, i + 1);
    if events[i].0 == id {
      assert Projection(events[..i + 1], id)[|Projection(events[..i], id)|] == events[i].1;
    }
    if i > 0 {
      NotTimedOut(events, id, i - 1);
      forall j | 0 <= j < i && events[..i][j].1.TimedOut? ensures events[..i][j].0 != id {
        if j < i - 1 {
          assert events[..i - 1][j] == events[..i][j];
          assert events[j].0 in TimedOutIds(events[..i - 1]);
        }
      }
    }
  }

  ghost predicate OnTrack<H>(
    p: Parsers<H>, start: Track<H>, now: Track<H>, muted: set<nat>, timedOut: set<nat>, events: seq<(nat, ClientEvent)>,
    id: nat)
  {
    && now == Course(p, start, Projection(events, id)) && now.muted == (id in timedOut)
    && timedOut <= muted + TimedOutIds(events)
  }

  lemma TrackNext<H>(
    p: Parsers<H>, start: Track<H>, before: Track<H>, after: Track<H>, muted: set<nat>, timedOut: set<nat>,
    events: seq<(nat, ClientEvent)>, id: nat, i: nat)
    requires i < |events| && OnTrack(p, start, before, muted, timedOut, events[..i], id)
    requires || (id !in muted && TimedOut !in Projection(events, id))
             || |muted + TimedOutIds(events)| <= MUTED_LIMIT
    requires after.exchange
             == (if events[i].0 == id then Move(p, before.exchange, before.muted, events[i].1) else before.exchange)
    requires after.muted == (id in Muted(timedOut, events[i].0, events[i].1))
    ensures OnTrack(p, start, after, muted, Muted(timedOut, events[i].0, events[i].1), events[..i + 1], id)
  {
    CourseNext(p, start, events, id, i);
    MutedNext(timedOut, muted, events, i);
    if id !in muted && TimedOut !in Projection(events, id) {
      NotTimedOut(events, id, i);
    }
  }

  // ----- responses -----

  function Response(chunks: seq<Chunk>): (events: seq<ClientEvent>)
    ensures |events| == |chunks| + 1
  {
    [Asked] + seq(|chunks|, i requires 0 <= i < |chunks| => Arrived(chunks[i]))
  }

  /** What a request ends with, told from the bytes of the response alone. */
  function Answered<H>(p: Parser<H>, chunks: seq<Chunk>): Exchange<H> {
    var data := BytesOf(chunks);
    var slot := Outcome(p, data, chunks != [], Ended(chunks));
    if chunks == [] || !p(data).Header? then Exchange(slot, Some(Pending), [])
    else if Ended(chunks) then Exchange(slot, None, [Resolved(p(data).header)])
    else Exchange(slot, Some(Resolved(p(data).header)), [])
  }

  /** The response parser raises after the k-th chunk. */
  predicate RaisesAt<H>(p: Parser<H>, chunks: seq<Chunk>, k: nat) {
    0 < k <= |chunks| && p(BytesOf(chunks[..k])).Malformed?
  }

  /** A request just asked for, on a fresh stream. */
  function Begun<H>(): Track<H> {
    Track(Exchange(Empty(), None, []), false)
  }

  /** The future of a request is resolved by the header its response holds, the response gets exactly the bytes after
      it, and both are independent of how the stream was cut; a stream that ends inside the header leaves the future
      pending. */
  lemma {:induction false} ResponseFromBytes<H(!new)>(p: Parsers<H>, chunks: seq<Chunk>)
    requires PrefixStable(p.response) && Framed(chunks)
    requires forall k: nat :: !RaisesAt(p.response, chunks, k)
    ensures Course(p, Begun(), Response(chunks)) == Track(Answered(p.response, chunks), false)
    decreases |chunks|
  {
    if chunks == [] {
      assert Response(chunks) == [] + [Asked];
      CourseSnoc(p, Begun(), [], Asked);
    } else {
      var earlier, c := chunks[..|chunks| - 1], chunks[|chunks| - 1];
      forall k: nat | RaisesAt(p.response, earlier, k) ensures RaisesAt(p.response, chunks, k) {
        assert earlier[..k] == chunks[..k];
      }
      assert chunks[..|chunks|] == chunks;
      assert !RaisesAt(p.response, chunks, |chunks|);
      ResponseFromBytes(p, earlier);
      assert Response(chunks) == Response(earlier) + [Arrived(c)];
      CourseSnoc(p, Begun(), Response(earlier), Arrived(c));
      assert earlier + [c] == chunks;
      AnsweredNext(p, earlier, c);
    }
  }

  lemma AnsweredNext<H(!new)>(p: Parsers<H>, earlier: seq<Chunk>, c: Chunk)
    requires PrefixStable(p.response) && Framed(earlier + [c]) && !Ended(earlier)
    requires !p.response(BytesOf(earlier + [c])).Malformed?
    ensures Move(p, Answered(p.response, earlier), false, Arrived(c)) == Answered(p.response, earlier + [c])
  {
    var chunks := earlier + [c];
    assert chunks[..|earlier|] == earlier;
    assert BytesOf(chunks) == BytesOf(earlier) + c.data;
    LastChunk(p.response, earlier, c);
    LastReport(p.response, earlier, c);
  }

  /** The chunk that completes the header reports it, and no other chunk does. */
  lemma LastReport<H(!new)>(p: Parser<H>, earlier: seq<Chunk>, c: Chunk)
    requires PrefixStable(p) && Framed(earlier + [c]) && !Ended(earlier)
    ensures var data := BytesOf(earlier) + c.data;
            var r := Feed(p, Outcome(p, BytesOf(earlier), earlier != [], false), c).1;
            r == (if p(data).Malformed? then Err("malformed header")
                  else if p(data).Header? && (earlier == [] || !p(BytesOf(earlier)).Header?)
                  then Ok(Some(p(data).header))
                  else Ok(None))
  {
    if earlier == [] {
      assert BytesOf(earlier) + c.data == c.data;
    }
  }

  /** The response object of a request has the header, and as payload what stands behind it in the bytes; the future is
      resolved with the header, and leaves the table when the stream ends or is reset. */
  lemma ResponsePayload<H(!new)>(p: Parsers<H>, chunks: seq<Chunk>)
    requires PrefixStable(p.response) && Framed(chunks) && chunks != []
    requires forall k: nat :: !RaisesAt(p.response, chunks, k)
    requires p.response(BytesOf(chunks)).Header?
    ensures var data, verdict := BytesOf(chunks), p.response(BytesOf(chunks));
            var x := Course(p, Begun(), Response(chunks)).exchange;
            && verdict.offset <= |data| && x.slot.buffer == None
            && (Ended(chunks) ==>
                  && x.handler == None && x.released == [Resolved(verdict.header)] && x.slot.live == None
                  && x.slot.past == [Message(verdict.header, data[verdict.offset..], Some(true))])
            && (!Ended(chunks) ==>
                  && x.handler == Some(Resolved(verdict.header)) && x.released == [] && x.slot.past == []
                  && x.slot.live == Some(Message(verdict.header, data[verdict.offset..], None)))
  {
    ResponseFromBytes(p, chunks);
    assert p.response(BytesOf(chunks) + []) == p.response(BytesOf(chunks));
  }

  lemma AnsweredReset<H(!new)>(p: Parsers<H>, chunks: seq<Chunk>)
    requires PrefixStable(p.response) && !Ended(chunks)
    ensures var data, verdict := BytesOf(chunks), p.response(BytesOf(chunks));
            var x := Move(p, Answered(p.response, chunks), false, WasReset);
            && x.handler == None && x.slot.buffer == None && x.slot.live == None
            && (if chunks != [] && verdict.Header? then
                  && verdict.offset <= |data| && x.released == [Resolved(verdict.header)]
                  && x.slot.past == [Message(verdict.header, data[verdict.offset..], Some(false))]
                else x.released == [Failed] && x.slot.past == [])
  {
    if p.response(BytesOf(chunks)).Header? {
      assert p.response(BytesOf(chunks) + []) == p.response(BytesOf(chunks));
    }
  }

  /** A reset releases the future: failed when no header came, and resolved as it was otherwise; the response so far is
      finished as incomplete. */
  lemma ResetReleases<H(!new)>(p: Parsers<H>, chunks: seq<Chunk>)
    requires PrefixStable(p.response) && Framed(chunks) && !Ended(chunks)
    requires forall k: nat :: !RaisesAt(p.response, chunks, k)
    ensures var data, verdict := BytesOf(chunks), p.response(BytesOf(chunks));
            var x := Course(p, Begun(), Response(chunks) + [WasReset]).exchange;
            && x.handler == None && x.slot.buffer == None && x.slot.live == None
            && (if chunks != [] && verdict.Header? then
                  && verdict.offset <= |data| && x.released == [Resolved(verdict.header)]
                  && x.slot.past == [Message(verdict.header, data[verdict.offset..], Some(false))]
                else x.released == [Failed] && x.slot.past == [])
  {
    ResponseFromBytes(p, chunks);
    CourseSnoc(p, Begun(), Response(chunks), WasReset);
    AnsweredReset(p, chunks);
  }

  /** A time-out releases the future as it stands, drops what was held and ignores the stream from then on, until its
      end arrives. */
  lemma TimeOutReleases<H>(p: Parsers<H>, x: Exchange<H>, muted: bool)
    ensures var t := Advance(p, Track(x, muted), TimedOut);
            && t.muted && t.exchange.handler == None && t.exchange.slot.buffer == None && t.exchange.slot.live == None
            && t.exchange.released == x.released + (if x.handler.Some? then [x.handler.value] else [])
    ensures forall c: Chunk :: Advance(p, Track(x, true), Arrived(c)) == Track(x, !c.end)
  {
  }

  /** Streams are ignored from their time-out to their end; when more than 8192 are, all are forgotten. */
  lemma MutedExactly(muted: set<nat>, id: nat, e: ClientEvent, other: nat)
    ensures other in Muted(muted, id, e)
            <==> || (other in muted && other != id && !(e.TimedOut? && |muted + {id}| > 8192))
                 || (other == id && e.TimedOut? && |muted + {id}| <= 8192)
                 || (other == id && id in muted && !e.TimedOut? && !(e.Arrived? && e.chunk.end))
  {
  }

  /** A settled future stays as it is: no event but a new request changes it, in the table or on its way out. */
  lemma SettledStays<H>(p: Parsers<H>, x: Exchange<H>, muted: bool, e: ClientEvent)
    requires x.handler.Some? && !x.handler.value.Pending? && !e.Asked?
    ensures var y := Move(p, x, muted, e);
            || (y.handler == x.handler && y.released == x.released)
            || (y.handler == None && y.released == x.released + [x.handler.value])
  {
  }

  /** What becomes of the chunks that follow a response the parser raised on: they are taken for a request. */
  function Afterwards<H>(p: Parsers<H>, rest: seq<Chunk>): Slot<H> {
    if p.serves then Fold(p.request, Empty(), DataEvents(rest)) else Empty()
  }

  lemma RaisesLast<H(!new)>(p: Parsers<H>, earlier: seq<Chunk>, c: Chunk)
    requires PrefixStable(p.response) && Framed(earlier + [c]) && !Ended(earlier)
    requires p.response(BytesOf(earlier + [c])).Malformed? && forall j: nat :: !RaisesAt(p.response, earlier, j)
    ensures Course(p, Begun(), Response(earlier + [c])) == Track(Exchange(Empty(), None, [Failed]), false)
  {
    ResponseFromBytes(p, earlier);
    assert Response(earlier + [c]) == Response(earlier) + [Arrived(c)];
    CourseSnoc(p, Begun(), Response(earlier), Arrived(c));
    assert BytesOf(earlier + [c]) == BytesOf(earlier) + c.data by {
      assert (earlier + [c])[..|earlier|] == earlier;
    }
    StillWaiting(p, earlier, c);
  }

  /** Where the parser first raises, the future fails, whatever follows; the rest of the stream goes to the
      request path. */
  lemma {:induction false} ResponseRaises<H(!new)>(p: Parsers<H>, chunks: seq<Chunk>, k: nat)
    requires PrefixStable(p.response) && Framed(chunks)
    requires RaisesAt(p.response, chunks, k) && forall j: nat :: j < k ==> !RaisesAt(p.response, chunks, j)
    ensures Course(p, Begun(), Response(chunks)) == Track(Exchange(Afterwards(p, chunks[k..]), None, [Failed]), false)
    decreases |chunks|
  {
    var earlier, c := chunks[..|chunks| - 1], chunks[|chunks| - 1];
    assert Response(chunks) == Response(earlier) + [Arrived(c)];
    CourseSnoc(p, Begun(), Response(earlier), Arrived(c));
    assert earlier + [c] == chunks && chunks[..|chunks|] == chunks;
    forall j: nat | j <= |earlier| ensures RaisesAt(p.response, earlier, j) <==> RaisesAt(p.response, chunks, j) {
      assert earlier[..j] == chunks[..j];
    }
    if k == |chunks| {
      RaisesLast(p, earlier, c);
      assert chunks[k..] == [];
    } else {
      ResponseRaises(p, earlier, k);
      assert DataEvents(chunks[k..]) == DataEvents(earlier[k..]) + [Data(c)];
      FoldSnoc(p.request, Empty(), DataEvents(earlier[k..]), Data(c));
    }
  }

  /** Until the parser raises there was no header, so the future is still pending. */
  lemma StillWaiting<H(!new)>(p: Parsers<H>, earlier: seq<Chunk>, c: Chunk)
    requires PrefixStable(p.response) && Framed(earlier + [c]) && !Ended(earlier)
    requires p.response(BytesOf(earlier) + c.data).Malformed?
    ensures Answered(p.response, earlier).handler == Some(Pending)
    ensures Move(p, Answered(p.response, earlier), false, Arrived(c)) == Exchange(Empty(), None, [Failed])
  {
    LastReport(p.response, earlier, c);
    LastChunk(p.response, earlier, c);
  }

  /** A header of two octets, of which one arrives before the stream ends: the future stays pending. */
  lemma EndsInsideHeader(request: Parser<nat>, serves: bool)
    ensures var response: Parser<nat> := s => if |s| >= 2 then Header(0, 2) else Incomplete;
            Course(Parsers(request, response, serves), Begun(), Response([Chunk([7], true)]))
            == Track(Exchange(Empty(), Some(Pending), []), false)
  {
    var response: Parser<nat> := s => if |s| >= 2 then Header(0, 2) else Incomplete;
    var p := Parsers(request, response, serves);
    var chunks := [Chunk([7], true)];
    assert chunks[..0] == [] && BytesOf([]) == [];
    assert BytesOf(chunks) == [] + [7] == [7];
    forall s: seq<Byte>, t: seq<Byte> | response(s).Header? ensures response(s + t) == response(s) {}
    ResponseFromBytes(p, chunks);
  }
}
