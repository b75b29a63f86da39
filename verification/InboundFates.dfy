// Where the datagrams of one peer end up: nothing before the key, nothing lost
// without a reason, and everything that waited once the key is there.
module InboundFates {
  import opened Prelude
  import opened Encryptor
  import opened Inbound

  // ----- before the key -----

  /** Until the key is known the peer is not ready, and nothing but system datagrams of other commands was handed on. */
  predicate KeyFirst(p: Pipeline) {
    p.keyKnown
    || (&& p.core.ready != Ready
        && forall i :: 0 <= i < |p.core.processed| ==>
             p.core.processed[i] < |p.arrived| && p.arrived[p.core.processed[i]] == OtherSystem)
  }

  lemma KeyFirstKept(capacity: nat, p: Pipeline, e: Event)
    requires KeyFirst(p)
    ensures KeyFirst(Do(capacity, p, e))
  {
  }

  lemma {:induction false} KeyFirstThroughout(capacity: nat, p: Pipeline, events: seq<Event>)
    requires KeyFirst(p)
    ensures KeyFirst(Play(capacity, p, events))
    decreases |events|
  {
    if events != [] {
      KeyFirstKept(capacity, p, events[0]);
      KeyFirstThroughout(capacity, Do(capacity, p, events[0]), events[1..]);
    }
  }

  /** For every interleaving and all datagrams: no payload and no Initial reaches decryption before the key is known. */
  lemma NothingBeforeKey(capacity: nat, events: seq<Event>)
    ensures var p := Play(capacity, START, events);
            !p.keyKnown ==>
              && p.core.ready != Ready
              && forall n :: n in p.core.processed ==> n < |p.arrived| && p.arrived[n] == OtherSystem
  {
    KeyFirstThroughout(capacity, START, events);
  }

  /** A peer that is not ready hands on nothing but system datagrams of other commands, unless an Initial makes it
      ready. */
  lemma NotReadyHolds(ds: seq<Datagram>, c: Core, n: nat, verdict: Verdict)
    requires n < |ds| && c.ready != Ready && ds[n] != OtherSystem && !(ds[n].Initial? && verdict.Initialize?)
    ensures var d := Handled(ds, c, n, verdict);
            && d.processed == c.processed && d.ready != Ready
            && d.waiting == (if ds[n].Payload? || (ds[n].Initial? && verdict.AwaitKey?)
                             then c.waiting + [n] else c.waiting)
  {
  }

  // ----- refusal -----

  lemma {:induction false} DroppedStays(capacity: nat, p: Pipeline, events: seq<Event>, n: nat)
    requires Accounted(p) && Locked(p) && n in p.core.dropped
    ensures n in Play(capacity, p, events).core.dropped && n !in Play(capacity, p, events).core.processed
    decreases |events|
  {
    if events == [] {
      assert Count(p, n) <= 1;
      assert n !in multiset(Line(p));
      assert forall x :: x in p.core.processed ==> x in Line(p);
    } else {
      var e := events[0];
      if Possible(p, e) {
        EventAccounted(capacity, p, e);
        DroppedGrows(capacity, p, e);
      }
      DroppedStays(capacity, Do(capacity, p, e), events[1..], n);
    }
  }

  lemma DroppedGrows(capacity: nat, p: Pipeline, e: Event)
    requires Possible(p, e)
    ensures p.core.dropped <= After(capacity, p, e).core.dropped
  {
    FlushMoves(p.arrived, p.core.(ready := Ready));
  }

  /** An Initial that is refused never reaches decryption, whatever follows; the peer is blocked when the refusal says
      so, and keeps the readiness it had otherwise. */
  lemma RefusedNeverProcessed(capacity: nat, p: Pipeline, block: bool, events: seq<Event>)
    requires Accounted(p) && Locked(p) && Possible(p, WorkerHandles(Refuse(block)))
    requires p.arrived[p.hand.value].Initial? && p.core.ready != Ready
    ensures var n, q := p.hand.value, After(capacity, p, WorkerHandles(Refuse(block)));
            && q.core.waiting == p.core.waiting && q.core.processed == p.core.processed
            && q.core.ready == (if block then Blocked else p.core.ready)
            && n !in Play(capacity, q, events).core.processed
  {
    var n, q := p.hand.value, After(capacity, p, WorkerHandles(Refuse(block)));
    EventAccounted(capacity, p, WorkerHandles(Refuse(block)));
    assert n in q.core.dropped;
    DroppedStays(capacity, q, events, n);
  }

  // ----- nothing lost -----

  /** Datagrams that have a meaning, no refusal and no shutdown. */
  predicate Benign(e: Event) {
    match e
    case Arrive(d) => d == Payload || d == Datagram.Initial(false) || d == OtherSystem
    case WorkerHandles(verdict) => !verdict.Refuse?
    case Shutdown => false
    case _ => true
  }

  predicate Meaningful(ds: seq<Datagram>) {
    forall i :: 0 <= i < |ds| ==> ds[i] == Payload || ds[i] == Datagram.Initial(false) || ds[i] == OtherSystem
  }

  lemma BenignKeeps(capacity: nat, p: Pipeline, e: Event)
    requires Meaningful(p.arrived) && p.core.dropped == {} && |p.shard| < capacity && Benign(e)
    ensures var q := Do(capacity, p, e);
            Meaningful(q.arrived) && q.core.dropped == {} && |q.shard| <= |p.shard| + 1
  {
    FlushMoves(p.arrived, p.core.(ready := Ready));
  }

  lemma {:induction false} NothingDropped(capacity: nat, p: Pipeline, events: seq<Event>)
    requires Meaningful(p.arrived) && p.core.dropped == {} && |p.shard| + |events| <= capacity
    requires forall i :: 0 <= i < |events| ==> Benign(events[i])
    ensures Play(capacity, p, events).core.dropped == {}
    decreases |events|
  {
    if events != [] {
      BenignKeeps(capacity, p, events[0]);
      NothingDropped(capacity, Do(capacity, p, events[0]), events[1..]);
    }
  }

  /** As long as the shard queue has room, nothing is refused and the peer stays, every datagram with a meaning is
      processed, waiting, in a worker's hand or queued, whatever the interleaving. */
  lemma NothingLost(capacity: nat, events: seq<Event>)
    requires |events| <= capacity && forall i :: 0 <= i < |events| ==> Benign(events[i])
    ensures var p := Play(capacity, START, events);
            forall n :: 0 <= n < |p.arrived| ==> n in Line(p)
  {
    NothingDropped(capacity, START, events);
    ExactlyOnce(capacity, events);
    var p := Play(capacity, START, events);
    forall n: nat | n < |p.arrived| ensures n in Line(p) {
      assert Count(p, n) == 1;
    }
  }

  // ----- once the key is there -----

  /** An Initial that must wait for the key goes to the end of the queue, and a fetch is under way. */
  lemma AwaitingFetches(capacity: nat, p: Pipeline)
    requires Ordered(p) && Possible(p, WorkerHandles(AwaitKey))
    requires p.arrived[p.hand.value].Initial? && p.core.ready != Ready
    ensures var q := After(capacity, p, WorkerHandles(AwaitKey));
            q.fetch != Idle && q.core.keyFetching && q.core.waiting == p.core.waiting + [p.hand.value]
  {
    EventKeepsExactly(capacity, p, WorkerHandles(AwaitKey));
  }

  /** When the fetch ends well, everything that waited has been handed on, in order, unless an Initial among it does not
      parse. */
  lemma FetchFlushes(capacity: nat, p: Pipeline)
    requires Possible(p, FetchFinishes(true))
    requires forall i :: 0 <= i < |p.core.waiting| ==> !Breaks(p.arrived, p.core.waiting[i])
    ensures var q := After(capacity, p, FetchFinishes(true));
            q.core.ready == Ready && q.core.waiting == [] && q.core.processed == p.core.processed + p.core.waiting
  {
    FlushMoves(p.arrived, p.core.(ready := Ready));
    assert p.core.waiting[..|p.core.waiting|] == p.core.waiting;
  }

  /** A fetch that is answered completes: from its request on, these four steps are possible one after the other, and
      nothing waits at their end. */
  lemma AnsweredFetchCompletes(capacity: nat, p: Pipeline)
    requires p.fetch == Requesting && p.lock == Free
    requires forall i :: 0 <= i < |p.core.waiting| ==> !Breaks(p.arrived, p.core.waiting[i])
    ensures var q := Play(capacity, p, [KeyAppears, FetchAnswers(true), FetchLocks, FetchFinishes(true)]);
            && q.core.ready == Ready && q.core.waiting == []
            && q.core.processed == p.core.processed + p.core.waiting
  {
    PlayFour(capacity, p, KeyAppears, FetchAnswers(true), FetchLocks, FetchFinishes(true));
    var held := Do(capacity, Do(capacity, Do(capacity, p, KeyAppears), FetchAnswers(true)), FetchLocks);
    FetchFlushes(capacity, held);
  }

  /** While one of worker and fetch holds the peer's lock, the other can neither take it nor act on the peer, and a
      fetch finishes only after its answer. */
  lemma LockExcludes(p: Pipeline, verdict: Verdict, accepted: bool)
    requires Locked(p)
    ensures p.lock == HeldByWorker ==> !Possible(p, FetchLocks) && !Possible(p, FetchFinishes(accepted))
    ensures p.lock == HeldByFetch ==> !Possible(p, WorkerLocks) && !Possible(p, WorkerHandles(verdict))
    ensures Possible(p, FetchLocks) ==> p.fetch == AwaitingLock
    ensures Possible(p, FetchFinishes(accepted)) ==> p.fetch == Finalizing
  {
  }

  /** A fetch that is refused or not answered blocks the peer and hands on nothing. */
  lemma FailedFetchBlocks(capacity: nat, p: Pipeline, e: Event)
    requires (e == FetchAnswers(false) || e == FetchFinishes(false)) && Possible(p, e)
    ensures var q := After(capacity, p, e);
            && q.core.ready == Blocked && !q.core.keyFetching && q.fetch == Idle
            && q.core.waiting == p.core.waiting && q.core.processed == p.core.processed
  {
  }
}
