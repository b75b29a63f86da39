// Two encryptors moving from one pair of transport keys to the next while
// datagrams are lost, repeated and reordered.
//
// The client installs a new root when its handshake completes, before it sends
// the flight that completes the server's handshake (section 2 of RFC 8446). The
// server installs when that flight arrives, and switches its send key on the
// next loop tick; the client switches when a packet under the new key arrives.
module Rekey {
  import opened Prelude
  import opened Bytes
  import opened Symbols
  import opened KeySchedule
  import opened Encryptor

  datatype EpochKeys = EpochKeys(toServer: Key, toClient: Key)

  type Schedule = nat -> EpochKeys

  ghost predicate Distinct(keys: Schedule) {
    forall i: nat, j: nat :: i != j ==>
      keys(i).toServer != keys(j).toServer && keys(i).toClient != keys(j).toClient
  }

  function ClientPair(keys: Schedule, epoch: nat): KeyPair {
    KeyPair(keys(epoch).toClient, keys(epoch).toServer)
  }

  function ServerPair(keys: Schedule, epoch: nat): KeyPair {
    KeyPair(keys(epoch).toServer, keys(epoch).toClient)
  }

  /** The secret and the label of an epoch: the bootstrap key first, then the roots. */
  function EpochSecret(bootstrap: Octets, roots: nat -> Octets, epoch: nat): (Octets, string) {
    if epoch == 0 then (bootstrap, BOOTSTRAP_INFO) else (roots(epoch), TRANSPORT_INFO)
  }

  /** The names of the two ends in an epoch. Type 2 and node ids use markers first and logical names later. */
  datatype Names = Names(client: string, server: string)

  function EpochPair(bootstrap: Octets, roots: nat -> Octets, local: string, peer: string, epoch: nat): KeyPair {
    var (secret, info) := EpochSecret(bootstrap, roots, epoch);
    DeriveKeys(secret, local, peer, info)
  }

  /** Roots and names numbered by epoch, as the client turns them into keys. */
  function ScheduleOf(bootstrap: Octets, roots: nat -> Octets, names: nat -> Names): Schedule {
    (epoch: nat) =>
      var own := EpochPair(bootstrap, roots, names(epoch).client, names(epoch).server, epoch);
      EpochKeys(own.keyOut, own.keyIn)
  }

  lemma EpochsDiffer(bootstrap: Octets, roots: nat -> Octets, n: Names, m: Names, i: nat, j: nat)
    requires i != j && (i != 0 && j != 0 ==> roots(i) != roots(j))
    ensures EpochPair(bootstrap, roots, n.client, n.server, i).keyOut
            != EpochPair(bootstrap, roots, m.client, m.server, j).keyOut
    ensures EpochPair(bootstrap, roots, n.client, n.server, i).keyIn
            != EpochPair(bootstrap, roots, m.client, m.server, j).keyIn
  {
    var (si, ni) := EpochSecret(bootstrap, roots, i);
    var (sj, nj) := EpochSecret(bootstrap, roots, j);
    var there, back := Text(n.client) + Text(n.server), Text(n.server) + Text(n.client);
    var away, home := Text(m.client) + Text(m.server), Text(m.server) + Text(m.client);
    if HkdfSha3(si, 32, there, ni) == HkdfSha3(sj, 32, away, nj) {
      HkdfInjective(si, there, ni, sj, away, nj, 32);
    }
    if HkdfSha3(si, 32, back, ni) == HkdfSha3(sj, 32, home, nj) {
      HkdfInjective(si, back, ni, sj, home, nj, 32);
    }
  }

  /** Distinct roots give distinct keys, whatever the names of each epoch, and the server's own derivation
      is the mirror image. */
  lemma ScheduleIsDistinct(bootstrap: Octets, roots: nat -> Octets, names: nat -> Names)
    requires forall i: nat, j: nat :: i != j ==> roots(i) != roots(j)
    ensures Distinct(ScheduleOf(bootstrap, roots, names))
    ensures forall epoch: nat :: ServerPair(ScheduleOf(bootstrap, roots, names), epoch)
                                 == EpochPair(bootstrap, roots, names(epoch).server, names(epoch).client, epoch)
  {
    var keys := ScheduleOf(bootstrap, roots, names);
    forall i: nat, j: nat | i != j
      ensures keys(i).toServer != keys(j).toServer && keys(i).toClient != keys(j).toClient
    {
      EpochsDiffer(bootstrap, roots, names(i), names(j), i, j);
    }
  }

  // ----- the transition system -----

  /** A payload; `flight` names the epoch whose handshake it completes at the server. */
  datatype Message = Message(body: seq<Byte>, flight: Option<nat>)

  /** Every datagram ever sent may still arrive, any number of times and in any order. */
  datatype System = System(
    client: Keyring, server: Keyring, clientEpoch: nat, serverEpoch: nat, ticks: nat,
    toServer: seq<Packet<Message>>, toClient: seq<Packet<Message>>)

  datatype Step =
    | ClientInstall
    | ServerTick
    | ClientSend(nonce: seq<Byte>, body: seq<Byte>, completesHandshake: bool)
    | ServerSend(nonce: seq<Byte>, body: seq<Byte>)
    | DeliverToServer(index: nat)
    | DeliverToClient(index: nat)

  ghost predicate Initial(keys: Schedule, s: System) {
    && s.client.keyIn == Some(keys(0).toClient) && s.client.keyOut == Some(keys(0).toServer)
    && s.server.keyIn == Some(keys(0).toServer) && s.server.keyOut == Some(keys(0).toClient)
    && s.client.pendingKeyOut == None && s.server.pendingKeyOut == None
    && s.clientEpoch == 0 && s.serverEpoch == 0 && s.ticks == 0
    && s.toServer == [] && s.toClient == []
  }

  /** A client starts another handshake only after its send key has caught up with the last one. */
  predicate Enabled(s: System, step: Step) {
    match step
    case ClientInstall => s.client.pendingKeyOut == None
    case ServerTick => s.ticks > 0
    case ClientSend(_, _, _) => s.client.keyOut.Some?
    case ServerSend(_, _) => s.server.keyOut.Some?
    case DeliverToServer(i) => i < |s.toServer|
    case DeliverToClient(i) => i < |s.toClient|
  }

  function InstallAtClient(keys: Schedule, s: System): System {
    s.(client := ReceiveOnly(s.client, ClientPair(keys, s.clientEpoch + 1)), clientEpoch := s.clientEpoch + 1)
  }

  function InstallAtServer(keys: Schedule, s: System): System {
    s.(server := ReceiveOnly(s.server, ServerPair(keys, s.serverEpoch + 1)),
       serverEpoch := s.serverEpoch + 1, ticks := s.ticks + 1)
  }

  function ReceivedByServer(keys: Schedule, s: System, p: Packet<Message>): System {
    var (ring, m) := Opened(s.server, p);
    var t := s.(server := ring);
    if m.Some? && m.value.flight == Some(s.serverEpoch + 1) then InstallAtServer(keys, t) else t
  }

  function ReceivedByClient(s: System, p: Packet<Message>): System {
    s.(client := Opened(s.client, p).0)
  }

  function Next(keys: Schedule, s: System, step: Step): System
    requires Enabled(s, step)
  {
    match step
    case ClientInstall => InstallAtClient(keys, s)
    case ServerTick => s.(server := Switched(s.server), ticks := s.ticks - 1)
    case ClientSend(nonce, body, done) =>
      var m := Message(body, if done then Some(s.clientEpoch) else None);
      s.(toServer := s.toServer + [Sealed(s.client.keyOut.value, nonce, m)])
    case ServerSend(nonce, body) =>
      s.(toClient := s.toClient + [Sealed(s.server.keyOut.value, nonce, Message(body, None))])
    case DeliverToServer(i) => ReceivedByServer(keys, s, s.toServer[i])
    case DeliverToClient(i) => ReceivedByClient(s, s.toClient[i])
  }

  /** The state after a run; steps that are not enabled when their turn comes do nothing. */
  function Run(keys: Schedule, s: System, steps: seq<Step>): System
    decreases |steps|
  {
    if steps == [] then s
    else Run(keys, if Enabled(s, steps[0]) then Next(keys, s, steps[0]) else s, steps[1..])
  }

  /** Each side's send key is one the peer accepts. */
  predicate Safe(s: System) {
    && s.client.keyOut.Some? && (s.client.keyOut == s.server.keyIn || s.client.keyOut == s.server.prevKeyIn)
    && s.server.keyOut.Some? && (s.server.keyOut == s.client.keyIn || s.server.keyOut == s.client.prevKeyIn)
  }

  // ----- the invariant -----

  ghost predicate SealedByClient(keys: Schedule, s: System, p: Packet<Message>) {
    && p.Sealed?
    && (p.plain.flight.Some? ==> p.plain.flight.value <= s.clientEpoch)
    && exists k: nat ::
         && k <= s.clientEpoch && p.key == keys(k).toServer
         && (k == s.clientEpoch ==> s.client.pendingKeyOut == None)
  }

  ghost predicate SealedByServer(keys: Schedule, s: System, p: Packet<Message>) {
    && p.Sealed?
    && exists k: nat ::
         && k <= s.serverEpoch && p.key == keys(k).toClient
         && (k == s.clientEpoch ==> s.server.pendingKeyOut == None)
  }

  ghost predicate KeysConsistent(keys: Schedule, s: System) {
    var e, f := s.clientEpoch, s.serverEpoch;
    && (f == e || f + 1 == e)
    && s.client.keyIn == Some(keys(e).toClient)
    && s.server.keyIn == Some(keys(f).toServer)
    && (s.client.pendingKeyOut == None ==>
          f == e && s.client.keyOut == Some(keys(e).toServer) && s.server.pendingKeyOut == None)
    && (s.client.pendingKeyOut != None ==>
          && e > 0
          && s.client.pendingKeyOut == Some(keys(e).toServer)
          && s.client.keyOut == Some(keys(e - 1).toServer)
          && s.client.prevKeyIn == Some(keys(e - 1).toClient)
          && (f == e ==> s.server.prevKeyIn == Some(keys(e - 1).toServer)))
    && (s.server.pendingKeyOut == None ==> s.server.keyOut == Some(keys(f).toClient))
    && (s.server.pendingKeyOut != None ==>
          && f == e && f > 0 && s.ticks > 0
          && s.server.pendingKeyOut == Some(keys(f).toClient)
          && s.server.keyOut == Some(keys(f - 1).toClient)
          && s.client.pendingKeyOut != None)
  }

  ghost predicate Inv(keys: Schedule, s: System) {
    && KeysConsistent(keys, s)
    && (forall i :: 0 <= i < |s.toServer| ==> SealedByClient(keys, s, s.toServer[i]))
    && (forall i :: 0 <= i < |s.toClient| ==> SealedByServer(keys, s, s.toClient[i]))
  }

  lemma InstallAtClientKeeps(keys: Schedule, s: System)
    requires Inv(keys, s) && s.client.pendingKeyOut == None
    ensures Inv(keys, InstallAtClient(keys, s))
  {
    var t := InstallAtClient(keys, s);
    forall i | 0 <= i < |t.toServer| ensures SealedByClient(keys, t, t.toServer[i]) {
      assert SealedByClient(keys, s, s.toServer[i]);
    }
    forall i | 0 <= i < |t.toClient| ensures SealedByServer(keys, t, t.toClient[i]) {
      assert SealedByServer(keys, s, s.toClient[i]);
    }
  }

  lemma TickKeeps(keys: Schedule, s: System)
    requires Inv(keys, s) && s.ticks > 0
    ensures Inv(keys, Next(keys, s, ServerTick))
  {
    var t := Next(keys, s, ServerTick);
    forall i | 0 <= i < |t.toServer| ensures SealedByClient(keys, t, t.toServer[i]) {
      assert SealedByClient(keys, s, s.toServer[i]);
    }
    forall i | 0 <= i < |t.toClient| ensures SealedByServer(keys, t, t.toClient[i]) {
      assert SealedByServer(keys, s, s.toClient[i]);
    }
  }

  lemma SendKeeps(keys: Schedule, s: System, step: Step)
    requires Inv(keys, s) && Enabled(s, step) && (step.ClientSend? || step.ServerSend?)
    ensures Inv(keys, Next(keys, s, step))
  {
    var t := Next(keys, s, step);
    forall i | 0 <= i < |t.toServer| ensures SealedByClient(keys, t, t.toServer[i]) {
      if i < |s.toServer| {
        assert SealedByClient(keys, s, s.toServer[i]);
      } else {
        var k := if s.client.pendingKeyOut == None then s.clientEpoch else s.clientEpoch - 1;
        assert t.toServer[i].key == keys(k).toServer;
      }
    }
    forall i | 0 <= i < |t.toClient| ensures SealedByServer(keys, t, t.toClient[i]) {
      if i < |s.toClient| {
        assert SealedByServer(keys, s, s.toClient[i]);
      } else {
        var k := if s.server.pendingKeyOut == None then s.serverEpoch else s.serverEpoch - 1;
        assert t.toClient[i].key == keys(k).toClient;
      }
    }
  }

  lemma ClientReceiveKeeps(keys: Schedule, s: System, p: Packet<Message>)
    requires Distinct(keys) && Inv(keys, s) && SealedByServer(keys, s, p)
    ensures Inv(keys, ReceivedByClient(s, p))
  {
    var t := ReceivedByClient(s, p);
    var k: nat :| k <= s.serverEpoch && p.key == keys(k).toClient
                  && (k == s.clientEpoch ==> s.server.pendingKeyOut == None);
    assert s.client.keyIn == Some(p.key) ==> k == s.clientEpoch;
    forall i | 0 <= i < |t.toServer| ensures SealedByClient(keys, t, t.toServer[i]) {
      assert SealedByClient(keys, s, s.toServer[i]);
    }
    forall i | 0 <= i < |t.toClient| ensures SealedByServer(keys, t, t.toClient[i]) {
      assert SealedByServer(keys, s, s.toClient[i]);
    }
  }

  lemma ServerOpenKeeps(keys: Schedule, s: System, p: Packet<Message>)
    requires Distinct(keys) && Inv(keys, s) && SealedByClient(keys, s, p)
    ensures Inv(keys, s.(server := Opened(s.server, p).0))
    ensures s.serverEpoch < s.clientEpoch ==> Opened(s.server, p).0.pendingKeyOut == None
  {
    var t := s.(server := Opened(s.server, p).0);
    var k: nat :| k <= s.clientEpoch && p.key == keys(k).toServer
                  && (k == s.clientEpoch ==> s.client.pendingKeyOut == None);
    assert s.server.keyIn == Some(p.key) ==> k == s.serverEpoch;
    forall i | 0 <= i < |t.toServer| ensures SealedByClient(keys, t, t.toServer[i]) {
      assert SealedByClient(keys, s, s.toServer[i]);
    }
    forall i | 0 <= i < |t.toClient| ensures SealedByServer(keys, t, t.toClient[i]) {
      assert SealedByServer(keys, s, s.toClient[i]);
    }
  }

  lemma ServerInstallKeeps(keys: Schedule, s: System)
    requires Inv(keys, s) && s.serverEpoch < s.clientEpoch
    ensures Inv(keys, InstallAtServer(keys, s))
  {
    var t := InstallAtServer(keys, s);
    assert s.client.pendingKeyOut != None;
    forall i | 0 <= i < |t.toServer| ensures SealedByClient(keys, t, t.toServer[i]) {
      assert SealedByClient(keys, s, s.toServer[i]);
    }
    forall i | 0 <= i < |t.toClient| ensures SealedByServer(keys, t, t.toClient[i]) {
      assert SealedByServer(keys, s, s.toClient[i]);
    }
  }

  lemma ServerReceiveKeeps(keys: Schedule, s: System, p: Packet<Message>)
    requires Distinct(keys) && Inv(keys, s) && SealedByClient(keys, s, p)
    ensures Inv(keys, ReceivedByServer(keys, s, p))
  {
    ServerOpenKeeps(keys, s, p);
    var (ring, m) := Opened(s.server, p);
    if m.Some? && m.value.flight == Some(s.serverEpoch + 1) {
      assert s.serverEpoch < s.clientEpoch;
      ServerInstallKeeps(keys, s.(server := ring));
    }
  }

  lemma NextKeeps(keys: Schedule, s: System, step: Step)
    requires Distinct(keys) && Inv(keys, s) && Enabled(s, step)
    ensures Inv(keys, Next(keys, s, step))
  {
    match step
    case ClientInstall => InstallAtClientKeeps(keys, s);
    case ServerTick => TickKeeps(keys, s);
    case ClientSend(_, _, _) => SendKeeps(keys, s, step);
    case ServerSend(_, _) => SendKeeps(keys, s, step);
    case DeliverToServer(i) => ServerReceiveKeeps(keys, s, s.toServer[i]);
    case DeliverToClient(i) => ClientReceiveKeeps(keys, s, s.toClient[i]);
  }

  lemma {:induction false} RunKeeps(keys: Schedule, s: System, steps: seq<Step>)
    requires Distinct(keys) && Inv(keys, s)
    ensures Inv(keys, Run(keys, s, steps))
    decreases |steps|
  {
    if steps != [] {
      if Enabled(s, steps[0]) {
        NextKeeps(keys, s, steps[0]);
        RunKeeps(keys, Next(keys, s, steps[0]), steps[1..]);
      } else {
        RunKeeps(keys, s, steps[1..]);
      }
    }
  }

  /** In every reachable state the ends accept each other's send keys, over any number of rekeys. */
  lemma RekeySafety(keys: Schedule, start: System, steps: seq<Step>)
    requires Distinct(keys) && Initial(keys, start)
    ensures Safe(Run(keys, start, steps))
  {
    RunKeeps(keys, start, steps);
  }

  /** So a packet sealed now opens at once on the other side, both ways. */
  lemma NeverLockedOut(keys: Schedule, start: System, steps: seq<Step>, nonce: seq<Byte>, m: Message)
    requires Distinct(keys) && Initial(keys, start)
    ensures var s := Run(keys, start, steps);
            && s.client.keyOut.Some? && Opened(s.server, Sealed(s.client.keyOut.value, nonce, m)).1 == Some(m)
            && s.server.keyOut.Some? && Opened(s.client, Sealed(s.server.keyOut.value, nonce, m)).1 == Some(m)
  {
    RekeySafety(keys, start, steps);
  }

  // ----- no way back -----

  function ClientSendEpoch(s: System): int {
    if s.client.pendingKeyOut == None then s.clientEpoch else s.clientEpoch - 1
  }

  function ServerSendEpoch(s: System): int {
    if s.server.pendingKeyOut == None then s.serverEpoch else s.serverEpoch - 1
  }

  /** Send keys only move forward: a step never returns a side to an earlier epoch's key. */
  lemma NoStepBack(keys: Schedule, start: System, steps: seq<Step>, step: Step)
    requires Distinct(keys) && Initial(keys, start) && Enabled(Run(keys, start, steps), step)
    ensures var s := Run(keys, start, steps);
            var t := Next(keys, s, step);
            && 0 <= ClientSendEpoch(s) <= ClientSendEpoch(t) && 0 <= ServerSendEpoch(s) <= ServerSendEpoch(t)
            && s.client.keyOut == Some(keys(ClientSendEpoch(s)).toServer)
            && t.client.keyOut == Some(keys(ClientSendEpoch(t)).toServer)
            && s.server.keyOut == Some(keys(ServerSendEpoch(s)).toClient)
            && t.server.keyOut == Some(keys(ServerSendEpoch(t)).toClient)
  {
    RunKeeps(keys, start, steps);
    var s := Run(keys, start, steps);
    NextKeeps(keys, s, step);
    SendsUnderItsEpoch(keys, s);
    SendsUnderItsEpoch(keys, Next(keys, s, step));
    EpochsGrow(keys, s, step);
  }

  lemma SendsUnderItsEpoch(keys: Schedule, s: System)
    requires Inv(keys, s)
    ensures 0 <= ClientSendEpoch(s) && s.client.keyOut == Some(keys(ClientSendEpoch(s)).toServer)
    ensures 0 <= ServerSendEpoch(s) && s.server.keyOut == Some(keys(ServerSendEpoch(s)).toClient)
  {
  }

  lemma EpochsGrow(keys: Schedule, s: System, step: Step)
    requires Distinct(keys) && Inv(keys, s) && Enabled(s, step)
    ensures ClientSendEpoch(s) <= ClientSendEpoch(Next(keys, s, step))
    ensures ServerSendEpoch(s) <= ServerSendEpoch(Next(keys, s, step))
  {
    if step.DeliverToServer? {
      ServerOpenKeeps(keys, s, s.toServer[step.index]);
    }
  }

  // ----- installing over an unfinished switch -----

  /** The states passed when the client installs once more and the server catches up. */
  predicate SafeThroughInstall(keys: Schedule, s: System) {
    var t := InstallAtClient(keys, s);
    var u := InstallAtServer(keys, t);
    Safe(t) && Safe(u) && (u.serverEpoch < u.clientEpoch ==> Safe(InstallAtServer(keys, u)))
  }

  /** A property of the encryptor, for a caller that may install more than one root: another root is safe
      exactly when the client's send key has followed the last one. A caller that installs at most once, as a
      client connection does, always meets the condition. */
  lemma InstallSafeExactly(keys: Schedule, start: System, steps: seq<Step>)
    requires Distinct(keys) && Initial(keys, start)
    ensures SafeThroughInstall(keys, Run(keys, start, steps))
            <==> Run(keys, start, steps).client.pendingKeyOut == None
  {
    RunKeeps(keys, start, steps);
    var s := Run(keys, start, steps);
    var e, f := s.clientEpoch, s.serverEpoch;
    if s.client.pendingKeyOut != None {
      assert keys(e - 1).toServer != keys(e + 1).toServer && keys(e - 1).toServer != keys(e).toServer;
      assert keys(e - 1).toClient != keys(e + 1).toClient && keys(e - 1).toClient != keys(e).toClient;
    }
  }

  /** A second install right behind the first leaves the ends locked out on the way. */
  lemma InstallTwiceUnsafe(keys: Schedule, start: System)
    requires Distinct(keys) && Initial(keys, start)
    ensures !SafeThroughInstall(keys, Run(keys, start, [ClientInstall]))
  {
    InstallSafeExactly(keys, start, [ClientInstall]);
    assert [ClientInstall][1..] == [];
    assert Run(keys, start, [ClientInstall]) == InstallAtClient(keys, start);
  }

  /** A client that installs once meets the condition at its install. */
  lemma FirstInstallSafe(keys: Schedule, start: System, steps: seq<Step>)
    requires Distinct(keys) && Initial(keys, start) && ClientInstall !in steps
    ensures SafeThroughInstall(keys, Run(keys, start, steps))
  {
    InstallSafeExactly(keys, start, steps);
    NothingPending(keys, start, steps);
  }

  lemma {:induction false} NothingPending(keys: Schedule, s: System, steps: seq<Step>)
    requires s.client.pendingKeyOut == None && ClientInstall !in steps
    ensures Run(keys, s, steps).client.pendingKeyOut == None
    decreases |steps|
  {
    if steps != [] {
      assert steps[0] != ClientInstall;
      assert forall x :: x in steps[1..] ==> x in steps;
      NothingPending(keys, if Enabled(s, steps[0]) then Next(keys, s, steps[0]) else s, steps[1..]);
    }
  }

  // ----- every epoch is reached -----

  /** One rekey when nothing is lost: the client installs and sends its flight, the server receives it, installs,
      switches and answers, and the client receives the answer. */
  function Round(s: System, nonce: seq<Byte>, body: seq<Byte>): seq<Step> {
    [ClientInstall, ClientSend(nonce, body, true), DeliverToServer(|s.toServer|), ServerTick, ServerSend(nonce, body),
     DeliverToClient(|s.toClient|)]
  }

  /** The state half way through: the flight is at the server, and both send keys are still to follow. */
  function FlightArrived(keys: Schedule, s: System, nonce: seq<Byte>, body: seq<Byte>): System
    requires s.client.keyOut.Some?
  {
    var a := InstallAtClient(keys, s);
    var b := Next(keys, a, ClientSend(nonce, body, true));
    ReceivedByServer(keys, b, b.toServer[|s.toServer|])
  }

  lemma HalfRound(keys: Schedule, s: System, nonce: seq<Byte>, body: seq<Byte>)
    requires Inv(keys, s) && s.client.pendingKeyOut == None
    ensures var h := FlightArrived(keys, s, nonce, body);
            && h.clientEpoch == s.clientEpoch + 1 && h.serverEpoch == s.clientEpoch + 1 && h.ticks > 0
            && h.server.pendingKeyOut == Some(keys(s.clientEpoch + 1).toClient)
            && h.client.keyIn == Some(keys(s.clientEpoch + 1).toClient) && h.client.prevKeyIn.Some?
            && h.client.pendingKeyOut == Some(keys(s.clientEpoch + 1).toServer)
            && h.server.keyIn == Some(keys(s.clientEpoch + 1).toServer)
            && h.toServer[..|s.toServer|] == s.toServer && |h.toServer| == |s.toServer| + 1 && h.toClient == s.toClient
  {
  }

  lemma RunSplits(keys: Schedule, s: System, a: seq<Step>, b: seq<Step>)
    ensures Run(keys, s, a + b) == Run(keys, Run(keys, s, a), b)
    decreases |a|
  {
    if a == [] {
      assert a + b == b;
    } else {
      assert (a + b)[0] == a[0] && (a + b)[1..] == a[1..] + b;
      RunSplits(keys, if Enabled(s, a[0]) then Next(keys, s, a[0]) else s, a[1..], b);
    }
  }

  lemma RunThree(keys: Schedule, s: System, a: Step, b: Step, c: Step)
    requires Enabled(s, a) && Enabled(Next(keys, s, a), b) && Enabled(Next(keys, Next(keys, s, a), b), c)
    ensures Run(keys, s, [a, b, c]) == Next(keys, Next(keys, Next(keys, s, a), b), c)
  {
    assert [a, b, c][1..] == [b, c] && [b, c][1..] == [c] && [c][1..] == [];
    var t := Next(keys, s, a);
    assert Run(keys, s, [a, b, c]) == Run(keys, t, [b, c]);
    assert Run(keys, t, [b, c]) == Run(keys, Next(keys, t, b), [c]);
    assert Run(keys, Next(keys, t, b), [c]) == Run(keys, Next(keys, Next(keys, t, b), c), []);
  }

  /** When nothing is lost, a round brings both ends to the next epoch, with both send keys in place. */
  lemma RoundCompletes(keys: Schedule, s: System, nonce: seq<Byte>, body: seq<Byte>)
    requires Inv(keys, s) && s.client.pendingKeyOut == None
    ensures var t := Run(keys, s, Round(s, nonce, body));
            && t.clientEpoch == s.clientEpoch + 1 && t.serverEpoch == s.clientEpoch + 1
            && t.client.pendingKeyOut == None && t.server.pendingKeyOut == None
            && t.client.keyOut == Some(keys(t.clientEpoch).toServer) && t.client.keyOut == t.server.keyIn
            && t.server.keyOut == Some(keys(t.clientEpoch).toClient) && t.server.keyOut == t.client.keyIn
  {
    var there, back := Round(s, nonce, body)[..3], Round(s, nonce, body)[3..];
    assert Round(s, nonce, body) == there + back;
    assert there == [ClientInstall, ClientSend(nonce, body, true), DeliverToServer(|s.toServer|)];
    assert back == [ServerTick, ServerSend(nonce, body), DeliverToClient(|s.toClient|)];
    RunSplits(keys, s, there, back);
    HalfRound(keys, s, nonce, body);
    RunThree(keys, s, ClientInstall, ClientSend(nonce, body, true), DeliverToServer(|s.toServer|));
    var h := FlightArrived(keys, s, nonce, body);
    assert Run(keys, s, there) == h;
    RunThree(keys, h, ServerTick, ServerSend(nonce, body), DeliverToClient(|s.toClient|));
  }

  /** Every epoch is reached in some run, by both ends, with their send keys in place. */
  lemma {:induction false} EveryEpochReached(keys: Schedule, start: System, n: nat)
    requires Distinct(keys) && Initial(keys, start)
    ensures exists steps: seq<Step> ::
              var t := Run(keys, start, steps);
              && t.clientEpoch == n && t.serverEpoch == n && t.client.pendingKeyOut == None
              && t.server.pendingKeyOut == None
  {
    if n == 0 {
      assert Run(keys, start, []) == start;
    } else {
      EveryEpochReached(keys, start, n - 1);
      var steps: seq<Step> :| var t := Run(keys, start, steps);
                              && t.clientEpoch == n - 1 && t.serverEpoch == n - 1 && t.client.pendingKeyOut == None
                              && t.server.pendingKeyOut == None;
      var t := Run(keys, start, steps);
      RunKeeps(keys, start, steps);
      RoundCompletes(keys, t, [], []);
      RunSplits(keys, start, steps, Round(t, [], []));
      assert Run(keys, start, steps + Round(t, [], [])).clientEpoch == n;
    }
  }
}
