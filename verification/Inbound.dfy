// The inbound path of one encrypted peer: shard queue, worker, per-peer lock,
// key fetch and the queue of datagrams that wait for the key.
//
// The peer uses one key id and an encrypted type, and its waiting queue holds
// incoming datagrams only. Code between two suspension points of the event loop
// is one step; policy decisions and the key server are nondeterministic.
module Inbound {
  import opened Prelude
  import opened Bytes
  import opened Encryptor
  import opened Bootstrap
  import opened KdcTables

  /** What the pipeline makes of a datagram. `Foreign` is empty or of another protocol version; `Spurious` is a
      system datagram that is too short or reports an error; `OtherSystem` one of a command without a meaning. A
      malformed Initial is one whose opened content does not parse as a QUIC packet. */
  datatype Datagram =
    | Foreign
    | Payload
    | Initial(malformed: bool)
    | Spurious
    | OtherSystem

  /** The classification of the octets, for a peer that keeps to one encrypted type and key id. */
  function Classified(version: nat, data: seq<Byte>, malformed: bool): Datagram {
    if data == [] || data[0] / 2 % 128 != version then Foreign
    else if data[0] % 2 == 0 then Payload
    else
      match ParseSystem(data)
      case TooShort => Spurious
      case BootstrapError(_, _) => Spurious
      case Initial(_, _, _) => Datagram.Initial(malformed)
      case Unknown(_, _) => OtherSystem
  }

  /** What is handed on at once: commands 2 to 15, with the ten octets of a header. What waits: low bit clear. */
  lemma ClassifiedExactly(version: nat, data: seq<Byte>, malformed: bool)
    ensures var ours := data != [] && data[0] / 2 % 128 == version;
            var d := Classified(version, data, malformed);
            && (d.Foreign? <==> !ours)
            && (d.Payload? <==> ours && data[0] % 2 == 0)
            && (d.Initial? <==> ours && data[0] % 2 == 1 && |data| >= 10 && data[1] < 16)
            && (d.OtherSystem? <==> ours && data[0] % 2 == 1 && |data| >= 10 && data[1] >= 32)
  {
  }

  /** What a client constructs as an Initial, its receiver takes for one if it speaks the same protocol version, and
      drops otherwise. */
  lemma ConstructedIsInitial(
    version: nat, encryptionType: nat, keyId: KeyId, body: seq<Byte>, receiver: nat, malformed: bool)
    requires encryptionType < 16 && 0 <= keyId.0 < 256
    ensures var data := InitialHeader(version, encryptionType, keyId).value + body;
            Classified(receiver, data, malformed)
            == if receiver == version % 128 then Datagram.Initial(malformed) else Foreign
  {
    var header := InitialHeader(version, encryptionType, keyId).value;
    HeaderRoundTrip(version, encryptionType, keyId, body);
    FirstOctet(version);
    assert (header + body)[0] == header[0] && (header + body)[1] == header[1];
    ClassifiedExactly(receiver, header + body, malformed);
  }

  lemma FirstOctet(version: nat)
    ensures (version % 128 * 2 + 1) / 2 % 128 == version % 128 && (version % 128 * 2 + 1) % 2 == 1
  {
  }

  /** The fields the peer's lock protects. Datagrams are known by their arrival number;
      `processed` lists those handed to decryption. */
  datatype Core = Core(
    waiting: seq<nat>, ready: Readiness, keyFetching: bool, processed: seq<nat>, dropped: set<nat>)

  predicate Breaks(ds: seq<Datagram>, n: nat) {
    n < |ds| && ds[n] == Datagram.Initial(true)
  }

  /** Flushing: each waiting datagram is processed in turn; routing a malformed Initial raises and ends the loop. */
  function Flushed(ds: seq<Datagram>, c: Core): (r: (Core, bool))
    decreases |c.waiting|
  {
    if c.waiting == [] then (c, false) else
      var n := c.waiting[0];
      var d := c.(waiting := c.waiting[1..], processed := c.processed + [n]);
      if Breaks(ds, n) then (d, true) else Flushed(ds, d)
  }

  /** How an Initial that needs the key is decided. */
  datatype Verdict =
    | Refuse(block: bool)  // policy, type mismatch or unknown domain; the last leaves `ready` alone
    | AwaitKey
    | Initialize

  /** One datagram handled under the lock. Only payloads and Initials wait for the key; a system datagram of another
      command is handed on at once, with or without keys. */
  function Handled(ds: seq<Datagram>, c: Core, n: nat, verdict: Verdict): Core
    requires n < |ds|
  {
    match ds[n]
    case Foreign => c.(dropped := c.dropped + {n})
    case Spurious => c.(dropped := c.dropped + {n})
    case OtherSystem => c.(processed := c.processed + [n])
    case Payload =>
      if c.ready == Ready then c.(processed := c.processed + [n]) else c.(waiting := c.waiting + [n])
    case Initial(_) =>
      if c.ready == Ready then c.(processed := c.processed + [n])
      else
        match verdict
        case Refuse(block) => c.(ready := if block then Blocked else c.ready, dropped := c.dropped + {n})
        case AwaitKey => c.(waiting := c.waiting + [n], keyFetching := true)
        case Initialize =>
          var (d, cut) := Flushed(ds, c.(ready := Ready));
          if cut then d.(dropped := d.dropped + {n}) else d.(processed := d.processed + [n])
  }

  /** The key fetch under the lock, once the key server has answered. */
  function Finalized(ds: seq<Datagram>, c: Core, accepted: bool): Core {
    if !accepted then c.(ready := Blocked, keyFetching := false)
    else
      var (d, cut) := Flushed(ds, c.(ready := Ready));
      if cut then d.(ready := Blocked, keyFetching := false) else d
  }

  // ----- the same, in place -----

  class InboundPeer {
    var waiting: seq<nat>
    var ready: Readiness
    var keyFetching: bool
    var processed: seq<nat>
    var dropped: set<nat>

    function View(): Core
      reads this
    {
      Core(waiting, ready, keyFetching, processed, dropped)
    }

    constructor ()
      ensures View() == Core([], NotReady, false, [], {})
    {
      waiting, ready, keyFetching, processed, dropped := [], NotReady, false, [], {};
    }

    method Flush(ds: seq<Datagram>) returns (cut: bool)
      modifies this`waiting, this`processed
      ensures (View(), cut) == Flushed(ds, old(View()))
    {
      cut := false;
      while waiting != [] && !cut
        invariant (if cut then (View(), true) else Flushed(ds, View())) == Flushed(ds, old(View()))
        decreases |waiting|
      {
        var n := waiting[0];
        waiting := waiting[1..];
        processed := processed + [n];
        cut := Breaks(ds, n);
      }
    }

    method HandleDatagram(ds: seq<Datagram>, n: nat, verdict: Verdict)
      requires n < |ds|
      modifies this
      ensures View() == Handled(ds, old(View()), n, verdict)
    {
      if ds[n].Foreign? {
        dropped := dropped + {n};
        return;
      }
      if ds[n].Payload? {
        if ready != Ready {
          waiting := waiting + [n];
          return;
        }
      } else {
        if ds[n].Spurious? {
          dropped := dropped + {n};
          return;
        }
        if ds[n].Initial? && ready != Ready {
          match verdict {
            case Refuse(block) =>
              if block {
                ready := Blocked;
              }
              dropped := dropped + {n};
              return;
            case AwaitKey =>
              waiting := waiting + [n];
              keyFetching := true;
              return;
            case Initialize =>
              ready := Ready;
              var cut := Flush(ds);
              if cut {
                dropped := dropped + {n};
                return;
              }
          }
        }
      }
      processed := processed + [n];
    }

    method FinalizeKeyAndFlush(ds: seq<Datagram>, accepted: bool)
      modifies this
      ensures View() == Finalized(ds, old(View()), accepted)
    {
      if !accepted {
        ready := Blocked;
        keyFetching := false;
        return;
      }
      ready := Ready;
      var cut := Flush(ds);
      if cut {
        ready := Blocked;
        keyFetching := false;
      }
    }
  }

  // ----- the transition system -----

  datatype Fetch = Idle | Requesting | AwaitingLock | Finalizing
  datatype Lock = Free | HeldByWorker | HeldByFetch

  datatype Pipeline = Pipeline(
    arrived: seq<Datagram>, shard: seq<nat>, hand: Option<nat>, core: Core,
    keyKnown: bool, fetch: Fetch, lock: Lock)

  datatype Event =
    | Arrive(datagram: Datagram)
    | Take
    | WorkerLocks
    | WorkerHandles(verdict: Verdict)
    | KeyAppears
    | FetchAnswers(ok: bool)
    | FetchLocks
    | FetchFinishes(accepted: bool)
    | Shutdown

  predicate Possible(p: Pipeline, e: Event) {
    match e
    case Arrive(_) => true
    case Take => p.hand == None && p.shard != []
    case WorkerLocks => p.hand.Some? && p.lock == Free
    case WorkerHandles(verdict) =>
      && p.lock == HeldByWorker && p.hand.Some? && p.hand.value < |p.arrived|
      && (verdict.AwaitKey? ==> !p.keyKnown) && (verdict.Initialize? ==> p.keyKnown)
    case KeyAppears => true
    case FetchAnswers(_) => p.fetch == Requesting
    case FetchLocks => p.fetch == AwaitingLock && p.lock == Free
    case FetchFinishes(accepted) => p.lock == HeldByFetch && (accepted ==> p.keyKnown)
    case Shutdown => true
  }

  function HandSeq(hand: Option<nat>): seq<nat> {
    if hand.Some? then [hand.value] else []
  }

  function Members(s: seq<nat>): set<nat> {
    set n | n in s
  }

  function After(capacity: nat, p: Pipeline, e: Event): Pipeline
    requires Possible(p, e)
  {
    match e
    case Arrive(d) =>
      var n := |p.arrived|;
      if |p.shard| < capacity then p.(arrived := p.arrived + [d], shard := p.shard + [n])
      else p.(arrived := p.arrived + [d], core := p.core.(dropped := p.core.dropped + {n}))
    case Take => p.(hand := Some(p.shard[0]), shard := p.shard[1..])
    case WorkerLocks => p.(lock := HeldByWorker)
    case WorkerHandles(verdict) =>
      var n := p.hand.value;
      var c := Handled(p.arrived, p.core, n, verdict);
      var starts := c.keyFetching && !p.core.keyFetching;
      p.(core := c, hand := None, lock := Free, fetch := if starts then Requesting else p.fetch)
    case KeyAppears => p.(keyKnown := true)
    case FetchAnswers(ok) =>
      if ok then p.(fetch := AwaitingLock)
      else p.(core := p.core.(ready := Blocked, keyFetching := false), fetch := Idle)
    case FetchLocks => p.(fetch := Finalizing, lock := HeldByFetch)
    case FetchFinishes(accepted) =>
      p.(core := Finalized(p.arrived, p.core, accepted), fetch := Idle, lock := Free)
    case Shutdown =>
      p.(shard := [], hand := None, lock := if p.lock == HeldByWorker then Free else p.lock,
         core := p.core.(dropped := p.core.dropped + Members(p.shard) + Members(HandSeq(p.hand))))
  }

  /** An event that is not possible when its turn comes does nothing. */
  function Do(capacity: nat, p: Pipeline, e: Event): Pipeline {
    if Possible(p, e) then After(capacity, p, e) else p
  }

  function Play(capacity: nat, p: Pipeline, events: seq<Event>): Pipeline
    decreases |events|
  {
    if events == [] then p
    else Play(capacity, Do(capacity, p, events[0]), events[1..])
  }

  const START := Pipeline([], [], None, Core([], NotReady, false, [], {}), false, Idle, Free)

  // ----- order and conservation -----

  predicate Increasing(s: seq<nat>) {
    forall i, j :: 0 <= i < j < |s| ==> s[i] < s[j]
  }

  /** Everything not dropped, from the first datagram processed to the last one queued. */
  function Line(p: Pipeline): seq<nat> {
    p.core.processed + p.core.waiting + HandSeq(p.hand) + p.shard
  }

  /** How often a datagram is accounted for: its places in the line, and whether it was dropped. */
  function Count(p: Pipeline, n: nat): nat {
    multiset(Line(p))[n] + (if n in p.core.dropped then 1 else 0)
  }

  /** Each datagram that arrived is dropped or stands in the line, once, and no other is. */
  ghost predicate Accounted(p: Pipeline) {
    forall n: nat :: Count(p, n) == if n < |p.arrived| then 1 else 0
  }

  /** What the locks and the fetch say of each other. */
  predicate Locked(p: Pipeline) {
    && (p.lock == HeldByFetch <==> p.fetch == Finalizing)
    && (p.lock == HeldByWorker ==> p.hand.Some?)
  }

  /** The line is in arrival order, a peer that is ready has nothing waiting, and a peer still
      without its key has a fetch under way. */
  predicate InOrder(p: Pipeline) {
    && Increasing(Line(p))
    && (p.core.ready == Ready ==> p.core.waiting == [])
    && (p.core.keyFetching && p.core.ready != Ready ==> p.fetch != Idle)
  }

  ghost predicate Ordered(p: Pipeline) {
    Accounted(p) && Locked(p) && InOrder(p)
  }

  /** The flush loop moves a prefix of the waiting queue over. */
  lemma {:induction false} FlushShape(ds: seq<Datagram>, c: Core)
    ensures var d := Flushed(ds, c).0;
            && d == c.(waiting := d.waiting, processed := d.processed)
            && |d.waiting| <= |c.waiting|
            && var moved := |c.waiting| - |d.waiting|;
            d.waiting == c.waiting[moved..] && d.processed == c.processed + c.waiting[..moved]
    decreases |c.waiting|
  {
    if c.waiting != [] {
      var n := c.waiting[0];
      var next := c.(waiting := c.waiting[1..], processed := c.processed + [n]);
      if !Breaks(ds, n) {
        FlushShape(ds, next);
        var moved := |next.waiting| - |Flushed(ds, next).0.waiting|;
        assert c.waiting[..moved + 1] == [n] + next.waiting[..moved];
        assert c.waiting[moved + 1..] == next.waiting[moved..];
        assert c.processed + ([n] + next.waiting[..moved]) == c.processed + [n] + next.waiting[..moved];
      } else {
        assert c.waiting[..1] == [n];
      }
    }
  }

  /** It stops behind the first Initial that breaks it, or at the end of the queue. */
  lemma {:induction false} FlushStops(ds: seq<Datagram>, c: Core)
    ensures var (d, cut) := Flushed(ds, c);
            var moved := |c.waiting| - |d.waiting|;
            && (!cut ==> d.waiting == [] && forall i :: 0 <= i < |c.waiting| ==> !Breaks(ds, c.waiting[i]))
            && (cut ==> 0 < moved <= |c.waiting| && Breaks(ds, c.waiting[moved - 1]))
            && (forall i :: 0 <= i < moved - 1 ==> !Breaks(ds, c.waiting[i]))
    decreases |c.waiting|
  {
    if c.waiting != [] {
      var n := c.waiting[0];
      var next := c.(waiting := c.waiting[1..], processed := c.processed + [n]);
      if !Breaks(ds, n) {
        FlushStops(ds, next);
        assert forall i :: 0 < i < |c.waiting| ==> c.waiting[i] == next.waiting[i - 1];
      }
    }
  }

  /** The flush loop moves a prefix of the waiting queue over, all of it unless an Initial breaks it. */
  lemma FlushMoves(ds: seq<Datagram>, c: Core)
    ensures var (d, cut) := Flushed(ds, c);
            && d == c.(waiting := d.waiting, processed := d.processed)
            && |d.waiting| <= |c.waiting|
            && var moved := |c.waiting| - |d.waiting|;
            && d.waiting == c.waiting[moved..] && d.processed == c.processed + c.waiting[..moved]
            && (!cut ==> d.waiting == [] && forall i :: 0 <= i < |c.waiting| ==> !Breaks(ds, c.waiting[i]))
            && (cut ==> moved > 0 && Breaks(ds, c.waiting[moved - 1]))
            && (forall i :: 0 <= i < moved - 1 ==> !Breaks(ds, c.waiting[i]))
  {
    FlushShape(ds, c);
    FlushStops(ds, c);
  }

  /** Moving datagrams from waiting to processed leaves the line as it is. */
  lemma FlushKeepsLine(ds: seq<Datagram>, c: Core, rest: seq<nat>)
    ensures var d := Flushed(ds, c).0;
            d.processed + d.waiting + rest == c.processed + c.waiting + rest && d.dropped == c.dropped
  {
    FlushMoves(ds, c);
    var d := Flushed(ds, c).0;
    var moved := |c.waiting| - |d.waiting|;
    assert c.waiting == c.waiting[..moved] + c.waiting[moved..];
  }

  // ----- nothing is lost and nothing is repeated -----

  lemma LineParts(p: Pipeline)
    ensures multiset(Line(p)) == multiset(p.core.processed) + multiset(p.core.waiting)
                                 + multiset(HandSeq(p.hand)) + multiset(p.shard)
  {
  }

  lemma FlushKeepsBag(ds: seq<Datagram>, c: Core)
    ensures var d := Flushed(ds, c).0;
            && multiset(d.processed) + multiset(d.waiting) == multiset(c.processed) + multiset(c.waiting)
            && d.dropped == c.dropped
  {
    FlushKeepsFront(ds, c);
    var d := Flushed(ds, c).0;
    assert multiset(d.processed + d.waiting) == multiset(c.processed + c.waiting);
  }

  lemma FlushKeepsFront(ds: seq<Datagram>, c: Core)
    ensures var d := Flushed(ds, c).0;
            d.processed + d.waiting == c.processed + c.waiting && d.dropped == c.dropped
  {
    FlushKeepsLine(ds, c, []);
    var d := Flushed(ds, c).0;
    assert d.processed + d.waiting + [] == d.processed + d.waiting;
    assert c.processed + c.waiting + [] == c.processed + c.waiting;
  }

  /** Unless it overtakes, the datagram in hand goes behind what is processed and waiting, or is dropped. */
  lemma HandledFront(ds: seq<Datagram>, c: Core, n: nat, verdict: Verdict)
    requires n < |ds| && (ds[n].OtherSystem? || c.ready == Ready ==> c.waiting == [])
    ensures var d := Handled(ds, c, n, verdict);
            var before, after := c.processed + c.waiting, d.processed + d.waiting;
            || (after == before + [n] && d.dropped == c.dropped)
            || (after == before && d.dropped == c.dropped + {n})
  {
    if ds[n].Initial? && c.ready != Ready && verdict.Initialize? {
      var ready := c.(ready := Ready);
      FlushKeepsFront(ds, ready);
      FlushMoves(ds, ready);
      Behind(Flushed(ds, ready).0, n);
    } else {
      Behind(c, n);
    }
  }

  lemma Behind(c: Core, n: nat)
    ensures c.processed + (c.waiting + [n]) == c.processed + c.waiting + [n]
    ensures c.waiting == [] ==> (c.processed + [n]) + c.waiting == c.processed + c.waiting + [n]
  {
  }

  /** Where the datagram in hand goes. */
  ghost predicate Placed(c: Core, d: Core, n: nat) {
    var before, after := multiset(c.processed) + multiset(c.waiting), multiset(d.processed) + multiset(d.waiting);
    || (after == before + multiset{n} && d.dropped == c.dropped)
    || (after == before && d.dropped == c.dropped + {n})
  }

  /** Between the two states the flush may have moved waiting datagrams, and the datagram in hand was
      appended to one of the sequences or dropped. */
  lemma PlacedAfter(c: Core, mid: Core, d: Core, n: nat)
    requires multiset(mid.processed) + multiset(mid.waiting) == multiset(c.processed) + multiset(c.waiting)
    requires mid.dropped == c.dropped
    requires || (d.processed == mid.processed + [n] && d.waiting == mid.waiting && d.dropped == mid.dropped)
             || (d.processed == mid.processed && d.waiting == mid.waiting + [n] && d.dropped == mid.dropped)
             || (d.processed == mid.processed && d.waiting == mid.waiting && d.dropped == mid.dropped + {n})
    ensures Placed(c, d, n)
  {
  }

  /** The datagram in hand goes to one place: processed, waiting or dropped. */
  lemma HandledBag(ds: seq<Datagram>, c: Core, n: nat, verdict: Verdict)
    requires n < |ds|
    ensures Placed(c, Handled(ds, c, n, verdict), n)
  {
    if ds[n].Initial? && c.ready != Ready && verdict.Initialize? {
      FlushKeepsBag(ds, c.(ready := Ready));
      PlacedAfter(c, Flushed(ds, c.(ready := Ready)).0, Handled(ds, c, n, verdict), n);
    } else {
      PlacedAfter(c, c, Handled(ds, c, n, verdict), n);
    }
  }

  lemma TakeKeeps(capacity: nat, p: Pipeline)
    requires Possible(p, Take)
    ensures Line(After(capacity, p, Take)) == Line(p)
  {
    assert p.shard == [p.shard[0]] + p.shard[1..];
  }

  lemma ArriveAccounted(capacity: nat, p: Pipeline, d: Datagram)
    requires Accounted(p)
    ensures Accounted(After(capacity, p, Arrive(d)))
  {
    var t := After(capacity, p, Arrive(d));
    if |p.shard| < capacity {
      assert Line(t) == Line(p) + [|p.arrived|];
    }
    forall n: nat ensures Count(t, n) == if n < |t.arrived| then 1 else 0 {
      assert Count(p, n) == if n < |p.arrived| then 1 else 0;
    }
  }

  lemma HandleAccounted(capacity: nat, p: Pipeline, verdict: Verdict)
    requires Accounted(p) && Possible(p, WorkerHandles(verdict))
    ensures Accounted(After(capacity, p, WorkerHandles(verdict)))
  {
    HandledBag(p.arrived, p.core, p.hand.value, verdict);
    PlacingKeeps(p, After(capacity, p, WorkerHandles(verdict)), p.hand.value);
  }

  /** Emptying the hand to one place keeps the account. */
  lemma PlacingKeeps(p: Pipeline, t: Pipeline, h: nat)
    requires Accounted(p) && p.hand == Some(h) && h < |p.arrived| && Placed(p.core, t.core, h)
    requires t.hand == None && t.shard == p.shard && t.arrived == p.arrived
    ensures Accounted(t)
  {
    LineParts(p);
    LineParts(t);
    assert multiset(HandSeq(p.hand)) == multiset{h};
    assert Count(p, h) == 1;
    forall n: nat ensures Count(t, n) == if n < |t.arrived| then 1 else 0 {
      assert Count(p, n) == if n < |p.arrived| then 1 else 0;
    }
  }

  lemma FinishAccounted(capacity: nat, p: Pipeline, accepted: bool)
    requires Accounted(p) && Possible(p, FetchFinishes(accepted))
    ensures Accounted(After(capacity, p, FetchFinishes(accepted)))
  {
    FlushKeepsBag(p.arrived, p.core.(ready := Ready));
    BagKeeps(p, After(capacity, p, FetchFinishes(accepted)));
  }

  lemma BagKeeps(p: Pipeline, t: Pipeline)
    requires Accounted(p) && t.hand == p.hand && t.shard == p.shard && t.arrived == p.arrived
    requires multiset(t.core.processed) + multiset(t.core.waiting)
             == multiset(p.core.processed) + multiset(p.core.waiting)
    requires t.core.dropped == p.core.dropped
    ensures Accounted(t)
  {
    LineParts(p);
    LineParts(t);
    forall n: nat ensures Count(t, n) == if n < |t.arrived| then 1 else 0 {
      assert Count(p, n) == if n < |p.arrived| then 1 else 0;
    }
  }

  lemma ShutdownAccounted(capacity: nat, p: Pipeline)
    requires Accounted(p)
    ensures Accounted(After(capacity, p, Shutdown))
  {
    var t := After(capacity, p, Shutdown);
    LineParts(p);
    LineParts(t);
    forall n: nat ensures Count(t, n) == if n < |t.arrived| then 1 else 0 {
      assert Count(p, n) == if n < |p.arrived| then 1 else 0;
      assert n in p.shard <==> multiset(p.shard)[n] > 0;
      assert n in HandSeq(p.hand) <==> multiset(HandSeq(p.hand))[n] > 0;
    }
  }

  /** Every event keeps the account, whatever the datagrams are. */
  lemma EventAccounted(capacity: nat, p: Pipeline, e: Event)
    requires Accounted(p) && Locked(p) && Possible(p, e)
    ensures Accounted(After(capacity, p, e)) && Locked(After(capacity, p, e))
  {
    var t := After(capacity, p, e);
    match e {
      case Arrive(d) => ArriveAccounted(capacity, p, d);
      case Take => TakeKeeps(capacity, p); SameAccount(p, t);
      case WorkerLocks => SameAccount(p, t);
      case WorkerHandles(verdict) => HandleAccounted(capacity, p, verdict);
      case KeyAppears => SameAccount(p, t);
      case FetchAnswers(_) => SameAccount(p, t);
      case FetchLocks => SameAccount(p, t);
      case FetchFinishes(accepted) => FinishAccounted(capacity, p, accepted);
      case Shutdown => ShutdownAccounted(capacity, p);
    }
  }

  lemma SameAccount(p: Pipeline, t: Pipeline)
    requires Accounted(p) && Line(t) == Line(p) && t.core.dropped == p.core.dropped && t.arrived == p.arrived
    ensures Accounted(t)
  {
    forall n: nat ensures Count(t, n) == if n < |t.arrived| then 1 else 0 {
      assert Count(p, n) == if n < |p.arrived| then 1 else 0;
    }
  }

  lemma {:induction false} PlayAccounted(capacity: nat, p: Pipeline, events: seq<Event>)
    requires Accounted(p) && Locked(p)
    ensures Accounted(Play(capacity, p, events)) && Locked(Play(capacity, p, events))
    decreases |events|
  {
    if events != [] {
      if Possible(p, events[0]) {
        EventAccounted(capacity, p, events[0]);
      }
      PlayAccounted(capacity, Do(capacity, p, events[0]), events[1..]);
    }
  }

  /** For every interleaving and all datagrams: each one that arrived is, exactly once, processed, waiting, in a
      worker's hand, in the shard queue or dropped. */
  lemma ExactlyOnce(capacity: nat, events: seq<Event>)
    ensures Accounted(Play(capacity, START, events))
  {
    assert Line(START) == [];
    PlayAccounted(capacity, START, events);
  }

  // ----- order -----

  /** What a worker's step needs to keep the order. A system datagram of another command must not find anything
      waiting, and an Initial that installs the key must not find a malformed Initial waiting before the last place. */
  predicate Harmless(p: Pipeline, e: Event)
    requires Possible(p, e)
  {
    if !e.WorkerHandles? then true
    else
      var d, c := p.arrived[p.hand.value], p.core;
      && (d.OtherSystem? ==> c.waiting == [])
      && (d.Initial? && c.ready != Ready && e.verdict.Initialize? ==>
            forall i :: 0 <= i < |c.waiting| - 1 ==> !Breaks(p.arrived, c.waiting[i]))
  }

  lemma ArriveInOrder(capacity: nat, p: Pipeline, d: Datagram)
    requires Ordered(p)
    ensures InOrder(After(capacity, p, Arrive(d)))
  {
    var t := After(capacity, p, Arrive(d));
    if |p.shard| < capacity {
      assert Line(t) == Line(p) + [|p.arrived|];
      forall i | 0 <= i < |Line(p)| ensures Line(p)[i] < |p.arrived| {
        assert Line(p)[i] in multiset(Line(p));
        assert Count(p, Line(p)[i]) > 0;
      }
    } else {
      assert Line(t) == Line(p);
    }
  }

  lemma Without(l: seq<nat>, k: nat)
    requires Increasing(l) && k < |l|
    ensures Increasing(l[..k] + l[k + 1..])
  {
    var m := l[..k] + l[k + 1..];
    assert forall i :: 0 <= i < |m| ==> m[i] == l[if i < k then i else i + 1];
  }

  lemma Prefix(head: seq<nat>, tail: seq<nat>)
    requires Increasing(head + tail)
    ensures Increasing(head)
  {
    forall i, j | 0 <= i < j < |head| ensures head[i] < head[j] {
      assert (head + tail)[i] < (head + tail)[j];
    }
  }

  lemma HandledReady(ds: seq<Datagram>, c: Core, n: nat, verdict: Verdict)
    requires n < |ds| && (c.ready == Ready ==> c.waiting == [])
    requires ds[n].Initial? && c.ready != Ready && verdict.Initialize?
             ==> forall i :: 0 <= i < |c.waiting| - 1 ==> !Breaks(ds, c.waiting[i])
    ensures var d := Handled(ds, c, n, verdict);
            d.ready == Ready ==> d.waiting == []
  {
    FlushMoves(ds, c.(ready := Ready));
  }

  lemma HandledFetching(ds: seq<Datagram>, c: Core, n: nat, verdict: Verdict)
    requires n < |ds|
    ensures var d := Handled(ds, c, n, verdict);
            && (d.keyFetching ==> c.keyFetching || ds[n].Initial?)
            && (c.keyFetching ==> d.keyFetching)
            && (d.ready != Ready ==> c.ready != Ready)
  {
    FlushMoves(ds, c.(ready := Ready));
  }

  /** A harmless step leaves the line as it was, or without the datagram in hand. */
  lemma HandledLine(capacity: nat, p: Pipeline, verdict: Verdict)
    requires Ordered(p) && Possible(p, WorkerHandles(verdict)) && Harmless(p, WorkerHandles(verdict))
    ensures InOrder(After(capacity, p, WorkerHandles(verdict)))
  {
    var t := After(capacity, p, WorkerHandles(verdict));
    var front := p.core.processed + p.core.waiting;
    var n := p.hand.value;
    HandledFront(p.arrived, p.core, n, verdict);
    HandledReady(p.arrived, p.core, n, verdict);
    HandledFetching(p.arrived, p.core, n, verdict);
    HandedOn(p, t, front, n);
  }

  lemma HandedOn(p: Pipeline, t: Pipeline, front: seq<nat>, n: nat)
    requires Increasing(Line(p)) && front == p.core.processed + p.core.waiting && p.hand == Some(n)
    requires t.hand == None && t.shard == p.shard
    requires t.core.processed + t.core.waiting == front || t.core.processed + t.core.waiting == front + [n]
    ensures Increasing(Line(t))
  {
    assert Line(p) == front + [n] + p.shard;
    if t.core.processed + t.core.waiting == front {
      Without(Line(p), |front|);
      assert Line(p)[..|front|] == front && Line(p)[|front| + 1..] == p.shard;
      assert Line(t) == front + p.shard;
    } else {
      assert Line(t) == Line(p);
    }
  }

  lemma InsertedBefore(head: seq<nat>, x: nat, n: nat, mid: seq<nat>, tail: seq<nat>)
    requires Increasing(head + [x] + mid + [n] + tail)
    ensures !Increasing(head + [n] + [x] + mid + tail)
  {
    var before, after := head + [x] + mid + [n] + tail, head + [n] + [x] + mid + tail;
    var k := |head|;
    assert before[k] == x && before[k + 1 + |mid|] == n;
    assert after[k] == n && after[k + 1] == x;
  }

  /** A system datagram of another command overtakes whatever waits. */
  lemma Overtakes(capacity: nat, p: Pipeline, verdict: Verdict)
    requires Ordered(p) && Possible(p, WorkerHandles(verdict))
    requires p.arrived[p.hand.value].OtherSystem? && p.core.waiting != []
    ensures !InOrder(After(capacity, p, WorkerHandles(verdict)))
  {
    var c, n := p.core, p.hand.value;
    var x, mid := c.waiting[0], c.waiting[1..];
    assert c.waiting == [x] + mid;
    Regrouped(c.processed, x, mid, [n], p.shard);
    InsertedBefore(c.processed, x, n, mid, p.shard);
    Regrouped(c.processed + [n], x, mid, [], p.shard);
  }

  lemma Regrouped(head: seq<nat>, x: nat, mid: seq<nat>, hand: seq<nat>, tail: seq<nat>)
    ensures head + ([x] + mid) + hand + tail == head + [x] + mid + hand + tail
    ensures hand == [] ==> head + ([x] + mid) + hand + tail == head + [x] + mid + tail
  {
  }

  /** An Initial that installs the key while a malformed one waits before the last place leaves the
      peer ready with datagrams behind. */
  lemma EndsEarly(capacity: nat, p: Pipeline, verdict: Verdict)
    requires Possible(p, WorkerHandles(verdict)) && !Harmless(p, WorkerHandles(verdict))
    requires !p.arrived[p.hand.value].OtherSystem?
    ensures !InOrder(After(capacity, p, WorkerHandles(verdict)))
  {
    var c := p.core.(ready := Ready);
    FlushMoves(p.arrived, c);
    var (d, cut) := Flushed(p.arrived, c);
    var i :| 0 <= i < |c.waiting| - 1 && Breaks(p.arrived, c.waiting[i]);
    assert cut;
    assert |c.waiting| - |d.waiting| <= i + 1;
  }

  lemma FinishInOrder(capacity: nat, p: Pipeline, accepted: bool)
    requires Ordered(p) && Possible(p, FetchFinishes(accepted))
    ensures InOrder(After(capacity, p, FetchFinishes(accepted)))
  {
    var t := After(capacity, p, FetchFinishes(accepted));
    var c := p.core.(ready := Ready);
    FlushMoves(p.arrived, c);
    FlushKeepsLine(p.arrived, c, HandSeq(p.hand) + p.shard);
    assert Line(p) == p.core.processed + p.core.waiting + (HandSeq(p.hand) + p.shard);
    assert Line(t) == t.core.processed + t.core.waiting + (HandSeq(p.hand) + p.shard);
  }

  lemma ShutdownInOrder(capacity: nat, p: Pipeline)
    requires Ordered(p)
    ensures InOrder(After(capacity, p, Shutdown))
  {
    var head, tail := p.core.processed + p.core.waiting, HandSeq(p.hand) + p.shard;
    assert Line(p) == head + tail;
    Prefix(head, tail);
    assert Line(After(capacity, p, Shutdown)) == head;
  }

  /** An event keeps the pipeline in order exactly when it is harmless. */
  lemma EventKeepsExactly(capacity: nat, p: Pipeline, e: Event)
    requires Ordered(p) && Possible(p, e)
    ensures Ordered(After(capacity, p, e)) <==> Harmless(p, e)
  {
    EventAccounted(capacity, p, e);
    match e {
      case Arrive(d) => ArriveInOrder(capacity, p, d);
      case Take => TakeKeeps(capacity, p);
      case WorkerLocks => assert Line(After(capacity, p, e)) == Line(p);
      case WorkerHandles(verdict) =>
        if Harmless(p, e) {
          HandledLine(capacity, p, verdict);
        } else if p.arrived[p.hand.value].OtherSystem? {
          Overtakes(capacity, p, verdict);
        } else {
          EndsEarly(capacity, p, verdict);
        }
      case KeyAppears => assert Line(After(capacity, p, e)) == Line(p);
      case FetchAnswers(_) => assert Line(After(capacity, p, e)) == Line(p);
      case FetchLocks => assert Line(After(capacity, p, e)) == Line(p);
      case FetchFinishes(accepted) => FinishInOrder(capacity, p, accepted);
      case Shutdown => ShutdownInOrder(capacity, p);
    }
  }

  /** The pipeline is in order after every prefix of the run. */
  ghost predicate OrderedThroughout(capacity: nat, p: Pipeline, events: seq<Event>)
    decreases |events|
  {
    Ordered(p) && (events == [] || OrderedThroughout(capacity, Do(capacity, p, events[0]), events[1..]))
  }

  /** Every step of the run is harmless when its turn comes. */
  predicate HarmlessThroughout(capacity: nat, p: Pipeline, events: seq<Event>)
    decreases |events|
  {
    events == []
    || ((Possible(p, events[0]) ==> Harmless(p, events[0]))
        && HarmlessThroughout(capacity, Do(capacity, p, events[0]), events[1..]))
  }

  lemma {:induction false} ThroughoutExactly(capacity: nat, p: Pipeline, events: seq<Event>)
    requires Ordered(p)
    ensures OrderedThroughout(capacity, p, events) <==> HarmlessThroughout(capacity, p, events)
    decreases |events|
  {
    if events != [] {
      var e := events[0];
      if Possible(p, e) {
        EventKeepsExactly(capacity, p, e);
      }
      var t := Do(capacity, p, e);
      if Ordered(t) {
        ThroughoutExactly(capacity, t, events[1..]);
      }
    }
  }

  /** For every interleaving, the pipeline stays in order throughout exactly when every step is harmless. */
  lemma InOrderExactly(capacity: nat, events: seq<Event>)
    ensures OrderedThroughout(capacity, START, events) <==> HarmlessThroughout(capacity, START, events)
  {
    assert Line(START) == [];
    ThroughoutExactly(capacity, START, events);
  }

  /** Arrivals that can do no harm in any interleaving. */
  predicate PlainArrivals(events: seq<Event>) {
    forall i :: 0 <= i < |events| && events[i].Arrive? ==> Plain(events[i].datagram)
  }

  predicate Plain(d: Datagram) {
    d != Datagram.Initial(true) && !d.OtherSystem?
  }

  lemma PlainHarmless(p: Pipeline, e: Event)
    requires Possible(p, e) && forall i :: 0 <= i < |p.arrived| ==> Plain(p.arrived[i])
    ensures Harmless(p, e)
  {
  }

  lemma PlainStep(capacity: nat, p: Pipeline, e: Event)
    requires Ordered(p) && (forall i :: 0 <= i < |p.arrived| ==> Plain(p.arrived[i]))
             && (e.Arrive? ==> Plain(e.datagram))
    ensures Ordered(Do(capacity, p, e))
    ensures forall i :: 0 <= i < |Do(capacity, p, e).arrived| ==> Plain(Do(capacity, p, e).arrived[i])
  {
    if Possible(p, e) {
      PlainHarmless(p, e);
      EventKeepsExactly(capacity, p, e);
    }
  }

  lemma {:induction false} PlainPlays(capacity: nat, p: Pipeline, events: seq<Event>)
    requires Ordered(p) && PlainArrivals(events) && forall i :: 0 <= i < |p.arrived| ==> Plain(p.arrived[i])
    ensures Ordered(Play(capacity, p, events))
    decreases |events|
  {
    if events != [] {
      PlainStep(capacity, p, events[0]);
      PlainPlays(capacity, Do(capacity, p, events[0]), events[1..]);
    }
  }

  /** So for every interleaving of payloads, well-formed Initials and datagrams that are dropped, datagrams reach
      decryption in arrival order and at most once, and no peer waits on a fetch that ended. */
  lemma InOrderExactlyOnce(capacity: nat, events: seq<Event>)
    requires PlainArrivals(events)
    ensures var p := Play(capacity, START, events);
            Ordered(p) && Increasing(p.core.processed)
  {
    assert Line(START) == [];
    PlainPlays(capacity, START, events);
    var p := Play(capacity, START, events);
    assert Line(p) == p.core.processed + (p.core.waiting + HandSeq(p.hand) + p.shard);
    Prefix(p.core.processed, p.core.waiting + HandSeq(p.hand) + p.shard);
  }

  // ----- runs in which the order is lost -----

  /** An Initial that installs the keys keeps the pipeline in order exactly when every waiting
      datagram, the last one aside, is free of the defect that ends the flush. */
  lemma InitializeKeepsOrderExactly(capacity: nat, p: Pipeline)
    requires Ordered(p) && Possible(p, WorkerHandles(Initialize))
    requires p.core.ready != Ready && p.arrived[p.hand.value].Initial?
    ensures Ordered(After(capacity, p, WorkerHandles(Initialize)))
            <==> forall i :: 0 <= i < |p.core.waiting| - 1 ==> !Breaks(p.arrived, p.core.waiting[i])
  {
    EventKeepsExactly(capacity, p, WorkerHandles(Initialize));
  }

  /** A system datagram of another command keeps it in order exactly when nothing waits. */
  lemma OtherSystemKeepsOrderExactly(capacity: nat, p: Pipeline, verdict: Verdict)
    requires Ordered(p) && Possible(p, WorkerHandles(verdict)) && p.arrived[p.hand.value].OtherSystem?
    ensures Ordered(After(capacity, p, WorkerHandles(verdict))) <==> p.core.waiting == []
  {
    EventKeepsExactly(capacity, p, WorkerHandles(verdict));
  }

  lemma PlayFour(capacity: nat, p: Pipeline, a: Event, b: Event, c: Event, d: Event)
    ensures Play(capacity, p, [a, b, c, d]) == Do(capacity, Do(capacity, Do(capacity, Do(capacity, p, a), b), c), d)
  {
    var p1 := Do(capacity, p, a);
    var p2 := Do(capacity, p1, b);
    var p3 := Do(capacity, p2, c);
    assert [a, b, c, d][1..] == [b, c, d] && [b, c, d][1..] == [c, d] && [c, d][1..] == [d];
    assert Play(capacity, p3, [d]) == Do(capacity, p3, d);
    assert Play(capacity, p2, [c, d]) == Play(capacity, p3, [d]);
    assert Play(capacity, p1, [b, c, d]) == Play(capacity, p2, [c, d]);
  }

  lemma {:induction false} PlayConcat(capacity: nat, p: Pipeline, a: seq<Event>, b: seq<Event>)
    ensures Play(capacity, p, a + b) == Play(capacity, Play(capacity, p, a), b)
    decreases |a|
  {
    if a == [] {
      assert a + b == b;
    } else {
      assert (a + b)[1..] == a[1..] + b;
      PlayConcat(capacity, Do(capacity, p, a[0]), a[1..], b);
    }
  }

  const BAD := Datagram.Initial(true)
  const GOOD := Datagram.Initial(false)
  const PAYLOAD := Datagram.Payload
  const OTHER := Datagram.OtherSystem

  /** A malformed Initial and a payload wait for the key. */
  lemma TwoWait()
    ensures var p1 := Pipeline([BAD], [], None, Core([0], NotReady, true, [], {}), false, Requesting, Free);
            && Play(8, START, [Arrive(BAD), Take, WorkerLocks, WorkerHandles(AwaitKey)]) == p1
            && Play(8, p1, [Arrive(PAYLOAD), Take, WorkerLocks, WorkerHandles(AwaitKey)])
               == p1.(arrived := [BAD, PAYLOAD], core := p1.core.(waiting := [0, 1]))
  {
    PlayFour(8, START, Arrive(BAD), Take, WorkerLocks, WorkerHandles(AwaitKey));
    var p1 := Pipeline([BAD], [], None, Core([0], NotReady, true, [], {}), false, Requesting, Free);
    PlayFour(8, p1, Arrive(PAYLOAD), Take, WorkerLocks, WorkerHandles(AwaitKey));
  }

  /** The key appears, and another Initial arrives. */
  lemma KeyArrives(p: Pipeline)
    requires p == Pipeline([BAD, PAYLOAD], [], None, Core([0, 1], NotReady, true, [], {}), false, Requesting, Free)
    ensures Play(8, p, [KeyAppears, FetchAnswers(true), Arrive(GOOD), Take])
            == p.(arrived := [BAD, PAYLOAD, GOOD], hand := Some(2), keyKnown := true, fetch := AwaitingLock)
  {
    PlayFour(8, p, KeyAppears, FetchAnswers(true), Arrive(GOOD), Take);
  }

  /** It installs the keys, and its flush ends at the malformed Initial. */
  lemma FlushEndsEarly(q: Pipeline)
    requires q == Pipeline([BAD, PAYLOAD, GOOD], [], Some(2), Core([0, 1], NotReady, true, [], {}), true,
                           AwaitingLock, Free)
    ensures Play(8, q, [WorkerLocks, WorkerHandles(Initialize), Arrive(PAYLOAD), Take])
            == q.(arrived := [BAD, PAYLOAD, GOOD, PAYLOAD], hand := Some(3), core := Core([1], Ready, true, [0], {2}))
  {
    var c := Core([0, 1], Ready, true, [], {});
    assert c.waiting[1..] == [1] && c.processed + [0] == [0];
    assert Flushed(q.arrived, c) == (Core([1], Ready, true, [0], {}), true);
    var r := q.(lock := HeldByWorker);
    assert Do(8, q, WorkerLocks) == r;
    assert Do(8, r, WorkerHandles(Initialize)) == q.(hand := None, core := Core([1], Ready, true, [0], {2}));
    PlayFour(8, q, WorkerLocks, WorkerHandles(Initialize), Arrive(PAYLOAD), Take);
  }

  /** The payload left behind is processed after a later one. */
  lemma LateFlush(q: Pipeline)
    requires q == Pipeline([BAD, PAYLOAD, GOOD, PAYLOAD], [], Some(3), Core([1], Ready, true, [0], {2}), true,
                           AwaitingLock, Free)
    ensures Play(8, q, [WorkerLocks, WorkerHandles(Initialize), FetchLocks, FetchFinishes(true)]).core.processed
            == [0, 3, 1]
  {
    var c := Core([1], Ready, true, [0, 3], {2});
    assert c.waiting[1..] == [] && c.processed + [1] == [0, 3, 1];
    assert !Breaks(q.arrived, 1);
    assert Flushed(q.arrived, c) == (Core([], Ready, true, [0, 3, 1], {2}), false);
    var r := q.(lock := HeldByWorker);
    assert Do(8, q, WorkerLocks) == r;
    assert Do(8, r, WorkerHandles(Initialize)) == q.(hand := None, core := c);
    PlayFour(8, q, WorkerLocks, WorkerHandles(Initialize), FetchLocks, FetchFinishes(true));
  }

  /** Without well-formed Initials the order is lost: datagram 1 is processed after datagram 3. */
  lemma MalformedInitialBreaksOrder()
    ensures exists events: seq<Event> :: Play(8, START, events).core.processed == [0, 3, 1]
  {
    var e1 := [Arrive(BAD), Take, WorkerLocks, WorkerHandles(AwaitKey)];
    var e2 := [Arrive(PAYLOAD), Take, WorkerLocks, WorkerHandles(AwaitKey)];
    var e3 := [KeyAppears, FetchAnswers(true), Arrive(GOOD), Take];
    var e4 := [WorkerLocks, WorkerHandles(Initialize), Arrive(PAYLOAD), Take];
    var e5 := [WorkerLocks, WorkerHandles(Initialize), FetchLocks, FetchFinishes(true)];
    TwoWait();
    PlayConcat(8, START, e1, e2);
    var p2 := Play(8, START, e1 + e2);
    KeyArrives(p2);
    FlushEndsEarly(Play(8, p2, e3));
    PlayConcat(8, START, e1 + e2, e3);
    PlayConcat(8, START, e1 + e2 + e3, e4);
    LateFlush(Play(8, START, e1 + e2 + e3 + e4));
    PlayConcat(8, START, e1 + e2 + e3 + e4, e5);
  }

  /** A payload waits, and a system datagram of another command is handed on before it. */
  lemma PayloadIsOvertaken()
    ensures var p1 := Pipeline([PAYLOAD], [], None, Core([0], NotReady, false, [], {}), false, Idle, Free);
            && Play(8, START, [Arrive(PAYLOAD), Take, WorkerLocks, WorkerHandles(AwaitKey)]) == p1
            && Play(8, p1, [Arrive(OTHER), Take, WorkerLocks, WorkerHandles(AwaitKey)])
               == p1.(arrived := [PAYLOAD, OTHER], core := p1.core.(processed := [1]))
  {
    PlayFour(8, START, Arrive(PAYLOAD), Take, WorkerLocks, WorkerHandles(AwaitKey));
    var p1 := Pipeline([PAYLOAD], [], None, Core([0], NotReady, false, [], {}), false, Idle, Free);
    PlayFour(8, p1, Arrive(OTHER), Take, WorkerLocks, WorkerHandles(AwaitKey));
  }

  /** An Initial then installs the key and flushes the payload. */
  lemma FlushAfterwards(q: Pipeline)
    requires q == Pipeline([PAYLOAD, OTHER], [], None, Core([0], NotReady, false, [1], {}), false, Idle, Free)
    ensures Play(8, q, [KeyAppears, Arrive(GOOD), Take, WorkerLocks])
            == q.(arrived := [PAYLOAD, OTHER, GOOD], hand := Some(2), keyKnown := true, lock := HeldByWorker)
    ensures Play(8, Play(8, q, [KeyAppears, Arrive(GOOD), Take, WorkerLocks]),
                 [WorkerHandles(Initialize)]).core.processed
            == [1, 0, 2]
  {
    PlayFour(8, q, KeyAppears, Arrive(GOOD), Take, WorkerLocks);
    var r := q.(arrived := [PAYLOAD, OTHER, GOOD], hand := Some(2), keyKnown := true, lock := HeldByWorker);
    var c := Core([0], Ready, false, [1], {});
    assert c.waiting[1..] == [] && c.processed + [0] == [1, 0];
    assert Flushed(r.arrived, c) == (Core([], Ready, false, [1, 0], {}), false);
    assert Do(8, r, WorkerHandles(Initialize)).core.processed == [1, 0, 2];
  }

  /** A system datagram of another command overtakes a waiting payload: datagram 1 is processed before datagram 0. */
  lemma OtherSystemBreaksOrder()
    ensures exists events: seq<Event> :: Play(8, START, events).core.processed == [1, 0, 2]
  {
    var e1 := [Arrive(PAYLOAD), Take, WorkerLocks, WorkerHandles(AwaitKey)];
    var e2 := [Arrive(OTHER), Take, WorkerLocks, WorkerHandles(AwaitKey)];
    var e3 := [KeyAppears, Arrive(GOOD), Take, WorkerLocks];
    PayloadIsOvertaken();
    PlayConcat(8, START, e1, e2);
    var q := Play(8, START, e1 + e2);
    FlushAfterwards(q);
    PlayConcat(8, START, e1 + e2, e3);
    PlayConcat(8, START, e1 + e2 + e3, [WorkerHandles(Initialize)]);
  }
}
