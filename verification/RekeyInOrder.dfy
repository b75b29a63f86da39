// The same two encryptors over links that may lose datagrams but keep their
// order: the switch is then invisible to the payload, and it completes.
module RekeyInOrder {
  import opened Prelude
  import opened Bytes
  import opened KeySchedule
  import opened Encryptor
  import opened Rekey

  /** The system, and whether each side has opened a packet under its newest inbound key. */
  datatype Link = Link(sys: System, clientHeard: bool, serverHeard: bool)

  datatype Move =
    | Local(step: Step)
    | ToServer
    | ToClient
    | LoseToServer(index: nat)
    | LoseToClient(index: nat)

  function Without<T>(q: seq<T>, i: nat): seq<T>
    requires i < |q|
  {
    q[..i] + q[i + 1..]
  }

  predicate Possible(l: Link, move: Move) {
    match move
    case Local(step) => !step.DeliverToServer? && !step.DeliverToClient? && Enabled(l.sys, step)
    case ToServer => l.sys.toServer != []
    case ToClient => l.sys.toClient != []
    case LoseToServer(i) => i < |l.sys.toServer|
    case LoseToClient(i) => i < |l.sys.toClient|
  }

  /** The packet yields what was sealed in it. */
  predicate Opens(r: Keyring, p: Packet<Message>) {
    p.Sealed? && Opened(r, p).1 == Some(p.plain)
  }

  predicate UnderNewestKey(r: Keyring, p: Packet<Message>) {
    p.Sealed? && r.keyIn == Some(p.key)
  }

  function Moved(keys: Schedule, l: Link, move: Move): Link
    requires Possible(l, move)
  {
    match move
    case Local(step) =>
      Link(Next(keys, l.sys, step), if step.ClientInstall? then false else l.clientHeard, l.serverHeard)
    case ToServer =>
      var p := l.sys.toServer[0];
      var t := ReceivedByServer(keys, l.sys, p);
      Link(t.(toServer := t.toServer[1..]), l.clientHeard,
           t.serverEpoch == l.sys.serverEpoch && (l.serverHeard || UnderNewestKey(l.sys.server, p)))
    case ToClient =>
      var p := l.sys.toClient[0];
      var t := ReceivedByClient(l.sys, p);
      Link(t.(toClient := t.toClient[1..]), l.clientHeard || UnderNewestKey(l.sys.client, p), l.serverHeard)
    case LoseToServer(i) => l.(sys := l.sys.(toServer := Without(l.sys.toServer, i)))
    case LoseToClient(i) => l.(sys := l.sys.(toClient := Without(l.sys.toClient, i)))
  }

  function Play(keys: Schedule, l: Link, moves: seq<Move>): Link
    decreases |moves|
  {
    if moves == [] then l
    else Play(keys, if Possible(l, moves[0]) then Moved(keys, l, moves[0]) else l, moves[1..])
  }

  ghost predicate Begins(keys: Schedule, l: Link) {
    Initial(keys, l.sys) && !l.clientHeard && !l.serverHeard
  }

  // ----- the invariant -----

  /** The first `stale` packets are under the previous key, the others under the current one. */
  ghost predicate Layered(q: seq<Packet<Message>>, stale: nat, previous: Option<Key>, current: Key) {
    && stale <= |q|
    && (forall i :: 0 <= i < |q| ==> q[i].Sealed?)
    && (forall i :: 0 <= i < stale ==> Some(q[i].key) == previous)
    && (forall i :: stale <= i < |q| ==> q[i].key == current)
  }

  ghost predicate ToServerLayers(keys: Schedule, s: System, stale: nat) {
    var f := s.serverEpoch;
    && Layered(s.toServer, stale, s.server.prevKeyIn, keys(f).toServer)
    && (stale > 0 ==> f > 0 && s.server.prevKeyIn == Some(keys(f - 1).toServer))
    && (s.client.keyOut != Some(keys(f).toServer) ==> stale == |s.toServer|)
    && (forall i :: 0 <= i < |s.toServer| && s.toServer[i].plain.flight == Some(f + 1) ==> i >= stale)
  }

  ghost predicate ToClientLayers(keys: Schedule, s: System, stale: nat) {
    var e := s.clientEpoch;
    && Layered(s.toClient, stale, s.client.prevKeyIn, keys(e).toClient)
    && (stale > 0 ==> e > 0 && s.client.prevKeyIn == Some(keys(e - 1).toClient))
    && (s.server.keyOut != Some(keys(e).toClient) ==> stale == |s.toClient|)
    && (s.client.pendingKeyOut == None ==> stale == 0)
  }

  ghost predicate LinkInv(keys: Schedule, l: Link) {
    && Inv(keys, l.sys)
    && (exists stale: nat :: ToServerLayers(keys, l.sys, stale))
    && (exists stale: nat :: ToClientLayers(keys, l.sys, stale))
    && (l.clientHeard ==> l.sys.client.prevKeyIn == None && l.sys.client.pendingKeyOut == None)
    && (l.serverHeard ==> l.sys.server.prevKeyIn == None && l.sys.server.pendingKeyOut == None)
  }

  lemma RemovalKeepsInv(keys: Schedule, s: System, t: System)
    requires Inv(keys, s)
    requires t == s.(toServer := t.toServer, toClient := t.toClient)
    requires forall i :: 0 <= i < |t.toServer| ==> t.toServer[i] in s.toServer
    requires forall i :: 0 <= i < |t.toClient| ==> t.toClient[i] in s.toClient
    ensures Inv(keys, t)
  {
    forall i | 0 <= i < |t.toServer| ensures SealedByClient(keys, t, t.toServer[i]) {
      var j :| 0 <= j < |s.toServer| && s.toServer[j] == t.toServer[i];
      assert SealedByClient(keys, s, s.toServer[j]);
    }
    forall i | 0 <= i < |t.toClient| ensures SealedByServer(keys, t, t.toClient[i]) {
      var j :| 0 <= j < |s.toClient| && s.toClient[j] == t.toClient[i];
      assert SealedByServer(keys, s, s.toClient[j]);
    }
  }

  lemma LocalKeeps(keys: Schedule, l: Link, step: Step)
    requires Distinct(keys) && LinkInv(keys, l) && Possible(l, Local(step))
    ensures LinkInv(keys, Moved(keys, l, Local(step)))
  {
    var s := l.sys;
    var t := Next(keys, s, step);
    NextKeeps(keys, s, step);
    var up: nat :| ToServerLayers(keys, s, up);
    var down: nat :| ToClientLayers(keys, s, down);
    assert s.client.keyOut != Some(keys(s.serverEpoch).toServer) ==> s.clientEpoch == s.serverEpoch;
    match step {
      case ClientInstall =>
        assert ToServerLayers(keys, t, up) by {
          forall i | 0 <= i < |s.toServer| ensures s.toServer[i].plain.flight != Some(t.serverEpoch + 1) {
            assert SealedByClient(keys, s, s.toServer[i]);
          }
        }
        assert ToClientLayers(keys, t, |t.toClient|);
      case ServerTick =>
        assert ToServerLayers(keys, t, up);
        assert ToClientLayers(keys, t, down);
      case ClientSend(_, _, _) =>
        var grown := if s.client.keyOut == Some(keys(s.serverEpoch).toServer) then up else up + 1;
        assert ToServerLayers(keys, t, grown);
        assert ToClientLayers(keys, t, down);
      case ServerSend(_, _) =>
        var grown := if s.server.keyOut == Some(keys(s.clientEpoch).toClient) then down else down + 1;
        assert ToServerLayers(keys, t, up);
        assert ToClientLayers(keys, t, grown);
    }
  }

  /** The head opens; if it lies under the previous key, it leaves the server's keys as they were. */
  lemma HeadOpensAtServer(keys: Schedule, s: System, stale: nat)
    requires Distinct(keys) && Inv(keys, s) && ToServerLayers(keys, s, stale) && s.toServer != []
    ensures s.toServer[0].Sealed?
    ensures Opened(s.server, s.toServer[0]).1 == Some(s.toServer[0].plain)
    ensures if stale > 0 then Opened(s.server, s.toServer[0]).0 == s.server && !UnderNewestKey(s.server, s.toServer[0])
            else Opened(s.server, s.toServer[0]).0.prevKeyIn == None && UnderNewestKey(s.server, s.toServer[0])
    ensures s.toServer[0].plain.flight == Some(s.serverEpoch + 1) ==> stale == 0
  {
    assert stale > 0 ==> keys(s.serverEpoch - 1).toServer != keys(s.serverEpoch).toServer;
  }

  lemma LayersAfterHead(q: seq<Packet<Message>>, stale: nat, previous: Option<Key>, after: Option<Key>, current: Key)
    requires Layered(q, stale, previous, current) && q != []
    requires stale > 0 ==> after == previous
    ensures Layered(q[1..], if stale == 0 then 0 else stale - 1, after, current)
  {
  }

  lemma ToServerKeeps(keys: Schedule, l: Link)
    requires Distinct(keys) && LinkInv(keys, l) && Possible(l, ToServer)
    ensures LinkInv(keys, Moved(keys, l, ToServer))
    ensures Opens(l.sys.server, l.sys.toServer[0])
  {
    var s := l.sys;
    var p := s.toServer[0];
    var up: nat :| ToServerLayers(keys, s, up);
    var down: nat :| ToClientLayers(keys, s, down);
    HeadOpensAtServer(keys, s, up);
    assert SealedByClient(keys, s, p);
    ServerReceiveKeeps(keys, s, p);
    ServerOpenKeeps(keys, s, p);
    var r := ReceivedByServer(keys, s, p);
    var t := Moved(keys, l, ToServer).sys;
    RemovalKeepsInv(keys, r, t);
    if p.plain.flight == Some(s.serverEpoch + 1) {
      ToServerInstalls(keys, s, t, up, down);
    } else {
      ToServerOpens(keys, s, t, up, down);
    }
  }

  lemma ToServerOpens(keys: Schedule, s: System, t: System, up: nat, down: nat)
    requires Distinct(keys) && Inv(keys, s) && ToServerLayers(keys, s, up) && ToClientLayers(keys, s, down)
    requires s.toServer != [] && Inv(keys, t)
    requires t == s.(server := Opened(s.server, s.toServer[0]).0, toServer := s.toServer[1..])
    ensures exists stale: nat :: ToServerLayers(keys, t, stale)
    ensures exists stale: nat :: ToClientLayers(keys, t, stale)
  {
    HeadOpensAtServer(keys, s, up);
    LayersAfterHead(s.toServer, up, s.server.prevKeyIn, t.server.prevKeyIn, keys(s.serverEpoch).toServer);
    assert ToServerLayers(keys, t, if up == 0 then 0 else up - 1);
    assert t.server.keyOut == s.server.keyOut;
    assert ToClientLayers(keys, t, down);
  }

  lemma ToServerInstalls(keys: Schedule, s: System, t: System, up: nat, down: nat)
    requires Distinct(keys) && Inv(keys, s) && ToServerLayers(keys, s, up) && ToClientLayers(keys, s, down)
    requires s.toServer != [] && s.toServer[0].plain.flight == Some(s.serverEpoch + 1) && Inv(keys, t)
    requires t == InstallAtServer(keys, s.(server := Opened(s.server, s.toServer[0]).0)).(toServer := s.toServer[1..])
    ensures exists stale: nat :: ToServerLayers(keys, t, stale)
    ensures exists stale: nat :: ToClientLayers(keys, t, stale)
  {
    HeadOpensAtServer(keys, s, up);
    forall i | 0 <= i < |t.toServer| ensures t.toServer[i].plain.flight != Some(t.serverEpoch + 1) {
      assert SealedByClient(keys, t, t.toServer[i]);
    }
    assert ToServerLayers(keys, t, |t.toServer|);
    assert t.server.keyOut == s.server.keyOut;
    assert ToClientLayers(keys, t, down);
  }

  lemma ToClientKeeps(keys: Schedule, l: Link)
    requires Distinct(keys) && LinkInv(keys, l) && Possible(l, ToClient)
    ensures LinkInv(keys, Moved(keys, l, ToClient))
    ensures Opens(l.sys.client, l.sys.toClient[0])
  {
    var s := l.sys;
    var p := s.toClient[0];
    assert SealedByServer(keys, s, p);
    ClientReceiveKeeps(keys, s, p);
    var r := ReceivedByClient(s, p);
    var t := Moved(keys, l, ToClient).sys;
    RemovalKeepsInv(keys, r, t);
    var up: nat :| ToServerLayers(keys, s, up);
    var down: nat :| ToClientLayers(keys, s, down);
    assert ToServerLayers(keys, t, up);
    assert ToClientLayers(keys, t, if down == 0 then 0 else down - 1) by {
      forall i | 0 <= i < |t.toClient| ensures t.toClient[i] == s.toClient[i + 1] {}
    }
  }

  lemma LayersAfterLoss(q: seq<Packet<Message>>, i: nat, stale: nat, previous: Option<Key>, current: Key)
    requires Layered(q, stale, previous, current) && i < |q|
    ensures Layered(Without(q, i), if i < stale then stale - 1 else stale, previous, current)
  {
    assert forall j :: 0 <= j < |q| - 1 ==> Without(q, i)[j] == q[if j < i then j else j + 1];
  }

  lemma LossToServerKeeps(keys: Schedule, s: System, i: nat, up: nat)
    requires i < |s.toServer| && ToServerLayers(keys, s, up)
    ensures ToServerLayers(keys, s.(toServer := Without(s.toServer, i)), if i < up then up - 1 else up)
  {
    LayersAfterLoss(s.toServer, i, up, s.server.prevKeyIn, keys(s.serverEpoch).toServer);
    assert forall j :: 0 <= j < |s.toServer| - 1 ==>
             Without(s.toServer, i)[j] == s.toServer[if j < i then j else j + 1];
  }

  lemma LossToClientKeeps(keys: Schedule, s: System, i: nat, down: nat)
    requires i < |s.toClient| && ToClientLayers(keys, s, down)
    ensures ToClientLayers(keys, s.(toClient := Without(s.toClient, i)), if i < down then down - 1 else down)
  {
    LayersAfterLoss(s.toClient, i, down, s.client.prevKeyIn, keys(s.clientEpoch).toClient);
  }

  lemma LossKeeps(keys: Schedule, l: Link, move: Move)
    requires LinkInv(keys, l) && Possible(l, move) && (move.LoseToServer? || move.LoseToClient?)
    ensures LinkInv(keys, Moved(keys, l, move))
  {
    var s := l.sys;
    var t := Moved(keys, l, move).sys;
    RemovalKeepsInv(keys, s, t);
    var up: nat :| ToServerLayers(keys, s, up);
    var down: nat :| ToClientLayers(keys, s, down);
    if move.LoseToServer? {
      LossToServerKeeps(keys, s, move.index, up);
      assert ToClientLayers(keys, t, down);
    } else {
      LossToClientKeeps(keys, s, move.index, down);
      assert ToServerLayers(keys, t, up);
    }
  }

  lemma {:induction false} PlayKeeps(keys: Schedule, l: Link, moves: seq<Move>)
    requires Distinct(keys) && LinkInv(keys, l)
    ensures LinkInv(keys, Play(keys, l, moves))
    decreases |moves|
  {
    if moves != [] {
      if Possible(l, moves[0]) {
        match moves[0] {
          case Local(step) => LocalKeeps(keys, l, step);
          case ToServer => ToServerKeeps(keys, l);
          case ToClient => ToClientKeeps(keys, l);
          case LoseToServer(_) => LossKeeps(keys, l, moves[0]);
          case LoseToClient(_) => LossKeeps(keys, l, moves[0]);
        }
        PlayKeeps(keys, Moved(keys, l, moves[0]), moves[1..]);
      } else {
        PlayKeeps(keys, l, moves[1..]);
      }
    }
  }

  lemma BeginsEstablishes(keys: Schedule, l: Link)
    requires Begins(keys, l)
    ensures LinkInv(keys, l)
  {
    assert ToServerLayers(keys, l.sys, 0);
    assert ToClientLayers(keys, l.sys, 0);
  }

  /** Transparency: with order kept, the datagram next in line always opens, whatever was lost before it. */
  lemma EveryDeliveryOpens(keys: Schedule, start: Link, moves: seq<Move>)
    requires Distinct(keys) && Begins(keys, start)
    ensures var s := Play(keys, start, moves).sys;
            && (s.toServer != [] ==> Opens(s.server, s.toServer[0]))
            && (s.toClient != [] ==> Opens(s.client, s.toClient[0]))
  {
    BeginsEstablishes(keys, start);
    PlayKeeps(keys, start, moves);
    var l := Play(keys, start, moves);
    if l.sys.toServer != [] {
      ToServerKeeps(keys, l);
    }
    if l.sys.toClient != [] {
      ToClientKeeps(keys, l);
    }
  }

  /** Convergence: once each side has opened one packet under the newest key, the switch has left no trace. */
  lemma OnePacketEachWaySettles(keys: Schedule, start: Link, moves: seq<Move>)
    requires Distinct(keys) && Begins(keys, start)
    ensures var l := Play(keys, start, moves);
            var epoch := l.sys.clientEpoch;
            l.clientHeard && l.serverHeard ==>
              && l.sys.serverEpoch == epoch
              && l.sys.client == Keyring(Some(keys(epoch).toClient), None, Some(keys(epoch).toServer), None)
              && l.sys.server == Keyring(Some(keys(epoch).toServer), None, Some(keys(epoch).toClient), None)
  {
    BeginsEstablishes(keys, start);
    PlayKeeps(keys, start, moves);
  }

  // ----- the switch completes -----

  lemma {:induction false} PlaySplits(keys: Schedule, l: Link, a: seq<Move>, b: seq<Move>)
    ensures Play(keys, l, a + b) == Play(keys, Play(keys, l, a), b)
    decreases |a|
  {
    if a == [] {
      assert a + b == b;
    } else {
      assert (a + b)[0] == a[0] && (a + b)[1..] == a[1..] + b;
      PlaySplits(keys, if Possible(l, a[0]) then Moved(keys, l, a[0]) else l, a[1..], b);
    }
  }

  lemma PlayThree(keys: Schedule, l: Link, a: Move, b: Move, c: Move)
    requires Possible(l, a) && Possible(Moved(keys, l, a), b) && Possible(Moved(keys, Moved(keys, l, a), b), c)
    ensures Play(keys, l, [a, b, c]) == Moved(keys, Moved(keys, Moved(keys, l, a), b), c)
  {
    assert [a, b, c][1..] == [b, c] && [b, c][1..] == [c] && [c][1..] == [];
    var t := Moved(keys, l, a);
    assert Play(keys, l, [a, b, c]) == Play(keys, t, [b, c]);
    assert Play(keys, t, [b, c]) == Play(keys, Moved(keys, t, b), [c]);
    assert Play(keys, Moved(keys, t, b), [c]) == Play(keys, Moved(keys, Moved(keys, t, b), c), []);
  }

  /** A loss takes one datagram off its link and changes nothing else. */
  lemma LosesExactly(keys: Schedule, l: Link, i: nat)
    ensures i < |l.sys.toServer| ==>
              var t := Moved(keys, l, LoseToServer(i));
              && t.sys.toServer == l.sys.toServer[..i] + l.sys.toServer[i + 1..] && t.sys.toClient == l.sys.toClient
              && t.sys.client == l.sys.client && t.sys.server == l.sys.server
    ensures i < |l.sys.toClient| ==>
              var t := Moved(keys, l, LoseToClient(i));
              && t.sys.toClient == l.sys.toClient[..i] + l.sys.toClient[i + 1..] && t.sys.toServer == l.sys.toServer
              && t.sys.client == l.sys.client && t.sys.server == l.sys.server
  {
  }

  /** Six moves over empty links: install, flight, delivery, switch, answer, delivery. */
  function InOrderRound(nonce: seq<Byte>, body: seq<Byte>): seq<Move> {
    [Local(ClientInstall), Local(ClientSend(nonce, body, true)), ToServer,
     Local(ServerTick), Local(ServerSend(nonce, body)), ToClient]
  }

  lemma HalfWay(keys: Schedule, l: Link, nonce: seq<Byte>, body: seq<Byte>)
    requires Inv(keys, l.sys) && l.sys.client.pendingKeyOut == None && l.sys.toServer == [] && l.sys.toClient == []
    ensures var h := Play(keys, l, InOrderRound(nonce, body)[..3]);
            var e := l.sys.clientEpoch + 1;
            && h.sys.clientEpoch == e && h.sys.serverEpoch == e && h.sys.ticks > 0
            && h.sys.server.pendingKeyOut == Some(keys(e).toClient) && h.sys.client.keyIn == Some(keys(e).toClient)
            && h.sys.client.prevKeyIn.Some? && h.sys.client.pendingKeyOut == Some(keys(e).toServer)
            && h.sys.toServer == [] && h.sys.toClient == [] && !h.serverHeard
  {
    assert InOrderRound(nonce, body)[..3] == [Local(ClientInstall), Local(ClientSend(nonce, body, true)), ToServer];
    PlayThree(keys, l, Local(ClientInstall), Local(ClientSend(nonce, body, true)), ToServer);
  }

  /** Over empty links a round brings both ends to the next epoch; the client has heard the server under the new key and
      holds no earlier one. */
  lemma InOrderRoundCompletes(keys: Schedule, l: Link, nonce: seq<Byte>, body: seq<Byte>)
    requires Inv(keys, l.sys) && l.sys.client.pendingKeyOut == None && l.sys.toServer == [] && l.sys.toClient == []
    ensures var t := Play(keys, l, InOrderRound(nonce, body));
            && t.sys.clientEpoch == l.sys.clientEpoch + 1 && t.sys.serverEpoch == l.sys.clientEpoch + 1
            && t.sys.client.pendingKeyOut == None && t.sys.server.pendingKeyOut == None
            && t.sys.client.prevKeyIn == None && t.clientHeard && !t.serverHeard
            && t.sys.toServer == [] && t.sys.toClient == []
  {
    var there, back := InOrderRound(nonce, body)[..3], InOrderRound(nonce, body)[3..];
    assert InOrderRound(nonce, body) == there + back;
    assert back == [Local(ServerTick), Local(ServerSend(nonce, body)), ToClient];
    PlaySplits(keys, l, there, back);
    HalfWay(keys, l, nonce, body);
    PlayThree(keys, Play(keys, l, there), Local(ServerTick), Local(ServerSend(nonce, body)), ToClient);
  }

  /** After a round, one more packet of the client leaves the server without an earlier key too. */
  lemma FollowUpSettles(keys: Schedule, l: Link, nonce: seq<Byte>, body: seq<Byte>)
    requires Inv(keys, l.sys) && l.sys.client.pendingKeyOut == None && l.sys.toServer == [] && l.sys.toClient == []
    ensures var t := Play(keys, l, [Local(ClientSend(nonce, body, false)), ToServer]);
            && t.serverHeard && t.sys.server.prevKeyIn == None && t.sys.server.pendingKeyOut == None
            && t.sys.toServer == [] && t.sys.serverEpoch == l.sys.serverEpoch
  {
    var send := Local(ClientSend(nonce, body, false));
    assert [send, ToServer][1..] == [ToServer] && [ToServer][1..] == [];
    var t := Moved(keys, l, send);
    assert Play(keys, l, [send, ToServer]) == Play(keys, t, [ToServer]);
    assert Play(keys, t, [ToServer]) == Play(keys, Moved(keys, t, ToServer), []);
  }
}
