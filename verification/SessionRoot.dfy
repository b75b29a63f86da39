// Installing the session root of a handshake in the encryptor of the connection.
module SessionRoot {
  import opened Prelude
  import opened Symbols
  import opened KeySchedule
  import opened KdcTables
  import opened Encryptor
  import M = Messages
  import opened Handshake
  import opened Agreement
  import opened HandshakeRuns

  const ANONYMOUS := "pq:anonymous"

  datatype Role =
    | ClientSide(settings: Option<ClientSettings>, hello: Option<M.ServerHello>)
    | ServerSide(authenticated: Option<string>)

  /** What a connection brings; the established state holds a root of 64 octets. */
  datatype Connection = Connection(
    peerDomain: Option<string>, established: Option<Established>, hasPath: bool, selfDomain: string, role: Role)

  predicate RootSized(x: Connection) {
    x.established.Some? ==> |x.established.value.root64| == 64
  }

  /** Local and peer name of the transport keys of type 2 and of node key ids. */
  function LogicalNames(x: Connection, peer: string): (string, string) {
    match x.role
    case ClientSide(settings, hello) =>
      var local := if settings.Some? then LocalName(settings.value) else None;
      (if local.Some? then local.value else ANONYMOUS, if hello.Some? then hello.value.certificate.name else peer)
    case ServerSide(authenticated) =>
      (x.selfDomain, if authenticated.Some? then authenticated.value else ANONYMOUS)
  }

  function TransportNames(s: State, x: Connection, peer: string): (string, string) {
    if s.encryptionType == 2 || NodeKey(s.keyId) then LogicalNames(x, peer) else (x.selfDomain, peer)
  }

  function WithRoot(s: State, root64: Octets, names: (string, string), peer: string): State {
    s.(ring := ReceiveOnly(s.ring, TransportKeys(root64, names.0, names.1)), root64 := Some(root64),
       domain := Some(peer))
  }

  /** The state left, whether the root is in place, and whether the send key is to follow on the next loop turn. */
  function Applied(s: State, x: Connection): (State, bool, bool) {
    if x.peerDomain.None? || x.peerDomain.value == "" then (s, false, false)
    else if x.established.None? || !x.hasPath || s.encryptionType == 0 then (s, false, false)
    else
      var root64 := x.established.value.root64;
      if s.root64 == Some(root64) then (s, true, false)
      else (WithRoot(s, root64, TransportNames(s, x, x.peerDomain.value), x.peerDomain.value), true, x.role.ServerSide?)
  }

  method ApplySessionRoot(enc: ConnectionEncryptor, x: Connection) returns (ok: bool, scheduled: bool)
    requires RootSized(x)
    modifies enc
    ensures (enc.View(), ok, scheduled) == Applied(old(enc.View()), x)
  {
    if x.peerDomain.None? || x.peerDomain.value == "" {
      return false, false;
    }
    if x.established.None? {
      return false, false;
    }
    if !x.hasPath {
      return false, false;
    }
    if enc.encryptionType == 0 {
      return false, false;
    }
    var peer := x.peerDomain.value;
    var root64 := x.established.value.root64;
    if enc.sessionRoot64 == Some(root64) {
      return true, false;
    }
    var installed: bool;
    if enc.encryptionType == 2 || NodeKey(enc.keyId) {
      var (local, other) := LogicalNames(x, peer);
      installed := enc.SetSessionRoot64ReceiveOnly(root64, local, other);
    } else {
      installed := enc.SetSessionRoot64ReceiveOnly(root64, x.selfDomain, peer);
    }
    enc.domain := Some(peer);
    return true, x.role.ServerSide?;
  }

  /** The root is installed exactly when the peer is known, the handshake has established a root that is not in place
      yet, there is a path and the type is an encrypted one; only a server then schedules its send key to follow, and
      what fails leaves the encryptor as it was. */
  lemma AppliesExactly(s: State, x: Connection)
    ensures var (t, ok, scheduled) := Applied(s, x);
            var usable := && x.peerDomain.Some? && x.peerDomain.value != "" && x.established.Some? && x.hasPath
                          && s.encryptionType != 0;
            && (ok <==> usable) && (!ok ==> t == s)
            && (scheduled <==> usable && s.root64 != Some(x.established.value.root64) && x.role.ServerSide?)
            && (ok ==> t.root64 == Some(x.established.value.root64) && t.ring.keyOut == s.ring.keyOut)
            && (ok && s.root64 != t.root64 ==>
                  && t.domain == x.peerDomain && t.ring.pendingKeyOut.Some? && t.ring.keyIn.Some?
                  && (s.ring.keyIn.Some? ==> t.ring.prevKeyIn == s.ring.keyIn))
  {
  }

  /** Whose names label the key an end will send under: in type 2 and for node ids the client's own name or the
      anonymous one and the name in the server's certificate, and the server's name and the one it authenticated;
      otherwise the end's own name and its peer's. */
  lemma InstalledKeyLabelled(s: State, x: Connection)
    requires Installs(s, x)
    ensures var logical := s.encryptionType == 2 || s.keyId.0 == 252 || s.keyId.0 == 253;
            var (own, peer) := (x.selfDomain, x.peerDomain.value);
            var names :=
              if !logical then own + peer
              else if x.role.ServerSide? then
                own + (if x.role.authenticated.Some? then x.role.authenticated.value else "pq:anonymous")
              else
                (if x.role.settings.Some? && LocalName(x.role.settings.value).Some?
                 then LocalName(x.role.settings.value).value else "pq:anonymous")
                + (if x.role.hello.Some? then x.role.hello.value.certificate.name else peer);
            Applied(s, x).0.ring.pendingKeyOut
            == Some(HkdfSha3(x.established.value.root64, 32, Text(names), "gn:DgEncryptor:root64:v1"))
  {
    var (local, peer) := TransportNames(s, x, x.peerDomain.value);
    DirectionLabelled(x.established.value.root64, local, peer, TRANSPORT_INFO);
  }

  /** A root that is in place is not installed again. */
  lemma AppliedOnce(s: State, x: Connection)
    requires Applied(s, x).1
    ensures Applied(Applied(s, x).0, x) == (Applied(s, x).0, true, false)
  {
  }

  /** After the encryptor was initialized anew, the root of the next handshake is installed, even one that was in place
      before. */
  lemma InitializedAnew(s: State, e: Endpoint, encryptionType: int, id: KeyId, domain: string, x: Connection)
    requires x.peerDomain.Some? && x.peerDomain.value != "" && x.established.Some? && x.hasPath
    ensures InitializedByKeyId(s, e, encryptionType, id).1.Ok? ==>
              var t := InitializedByKeyId(s, e, encryptionType, id).0;
              && (Installs(t, x) <==> encryptionType != 0)
              && t.ready == Ready && t.encryptionType == encryptionType && t.keyId == id
              && t.domain == e.kdc.DomainById(id)
    ensures InitializedByDomain(s, e, encryptionType, domain).1.Ok? ==>
              var t := InitializedByDomain(s, e, encryptionType, domain).0;
              && (Installs(t, x) <==> encryptionType != 0)
              && t.ready == Ready && t.encryptionType == encryptionType
    ensures Installs(InitializedType2(s, e, true), x) && InitializedType2(s, e, true).ready == Ready
  {
  }

  // ----- both ends -----

  /** Each end receives under the key the other end is about to send under. */
  predicate RootsMirror(a: State, b: State) {
    && a.ring.keyIn.Some? && a.ring.keyIn == b.ring.pendingKeyOut
    && b.ring.keyIn.Some? && b.ring.keyIn == a.ring.pendingKeyOut
  }

  /** The root will be installed: no reason to skip it. */
  predicate Installs(s: State, x: Connection) {
    && x.peerDomain.Some? && x.peerDomain.value != "" && x.established.Some? && x.hasPath
    && s.encryptionType != 0 && s.root64 != Some(x.established.value.root64)
  }

  /** The KDC key a server mixes in: that of the key id its encryptor was initialized with. */
  function PeerKdcKey(s: State, table: KdcTable): Option<Octets> {
    if s.keyId != (0, 0) && s.keyId.0 != 250 then table.KeyOf(s.keyId) else None
  }

  /** The KDC key a server mixes in is the one its bootstrap keys were derived from; type 2 and the unencrypted type
      have none. */
  lemma BootstrapKeyMixedIn(s: State, e: Endpoint, encryptionType: int, id: KeyId)
    ensures PeerKdcKey(InitializedType2(s, e, true), e.kdc) == None && PeerKdcKey(InitializedRaw(s), e.kdc) == None
    ensures InitializedByKeyId(s, e, encryptionType, id).1.Ok? && id != (0, 0) && id.0 != 250 ==>
              var t := InitializedByKeyId(s, e, encryptionType, id).0;
              && PeerKdcKey(t, e.kdc).Some?
              && var (local, peer) := BootstrapNames(e, id, e.kdc.DomainById(id).value);
                 t.ring == Encryptor.Installed(s.ring, BootstrapKeys(PeerKdcKey(t, e.kdc).value, local, peer))
  {
  }

  lemma InstalledKeysMirror(a: State, x: Connection, b: State, y: Connection)
    requires Installs(a, x) && Installs(b, y)
    ensures var (m, n) := (TransportNames(a, x, x.peerDomain.value), TransportNames(b, y, y.peerDomain.value));
            RootsMirror(Applied(a, x).0, Applied(b, y).0)
            <==> Mirrored(TransportKeys(x.established.value.root64, m.0, m.1),
                          TransportKeys(y.established.value.root64, n.0, n.1))
  {
  }

  lemma NamesDecide(r1: Octets, r2: Octets, client: string, seen: string, server: string)
    ensures Mirrored(TransportKeys(r1, client, seen), TransportKeys(r2, server, client)) <==> r1 == r2 && seen == server
  {
    MirroredExactly(r1, client, seen, r2, server, client, TRANSPORT_INFO);
    MirroredSameClient(r1, client, seen, server, TRANSPORT_INFO);
  }

  /** The two connections of one completed run. */
  predicate OfRun(o: Outcome, c: ClientSettings, x: Connection, y: Connection) {
    && x.established == Some(o.done.established) && x.role == ClientSide(Some(c), Some(o.hello))
    && y.established == Some(o.server) && y.role == ServerSide(o.authenticated)
  }

  /** Type 2 and node key ids: after a completed run, anonymous or certified, the transport keys mirror exactly when
      the KDC keys are equal and the server goes by the name in its certificate. */
  lemma LogicalKeysMirror(
    w: World, c: ClientSettings, domain: string, id: Identity, serverKdc: Option<Octets>, r: Randomness, now: int,
    a: State, x: Connection, b: State, y: Connection)
    requires Carried(w, c, id) && Nonces(r) && RunHandshake(w, c, domain, id, serverKdc, r, now).Ok?
    requires (c.identity.None? ==> c.clientDomain.None?)
    requires OfRun(RunHandshake(w, c, domain, id, serverKdc, r, now).value, c, x, y) && Installs(a, x) && Installs(b, y)
    requires (a.encryptionType == 2 || NodeKey(a.keyId)) && (b.encryptionType == 2 || NodeKey(b.keyId))
    ensures RootsMirror(Applied(a, x).0, Applied(b, y).0)
            <==> c.kdcKey == serverKdc && id.certificate.name == y.selfDomain
  {
    HandshakeAgreement(w, c, domain, id, serverKdc, r, now);
    var o := RunHandshake(w, c, domain, id, serverKdc, r, now).value;
    InstalledKeysMirror(a, x, b, y);
    NamesDecide(o.done.established.root64, o.server.root64, LogicalNames(x, x.peerDomain.value).0,
                o.hello.certificate.name, y.selfDomain);
  }

  /** Type 2, where the client takes whatever domain the certificate names and no KDC key takes part: the signature
      check has tied that name to the domain the server signed for, so only the server's own name is left to match. */
  lemma Type2KeysMirror(
    w: World, c: ClientSettings, domain: string, id: Identity, table: KdcTable, r: Randomness, now: int,
    a: State, x: Connection, b: State, y: Connection)
    requires Carried(w, c, id) && Nonces(r) && RunHandshake(w, c, domain, id, PeerKdcKey(b, table), r, now).Ok?
    requires c.acceptAny && c.kdcKey.None? && (c.identity.None? ==> c.clientDomain.None?)
    requires OfRun(RunHandshake(w, c, domain, id, PeerKdcKey(b, table), r, now).value, c, x, y) && Installs(a, x)
             && Installs(b, y)
    requires a.encryptionType == 2 && b.encryptionType == 2 && b.keyId == (250, 0)
    ensures id.certificate.name == domain
    ensures RootsMirror(Applied(a, x).0, Applied(b, y).0) <==> domain == y.selfDomain
  {
    HandshakeAgreement(w, c, domain, id, None, r, now);
    LogicalKeysMirror(w, c, domain, id, None, r, now, a, x, b, y);
  }

  /** Ordinary key ids: given that the server's peer is the client's own name, the transport keys mirror exactly when
      the KDC keys are equal and the client's peer is the server's own name. */
  lemma OrdinaryKeysMirror(
    w: World, c: ClientSettings, domain: string, id: Identity, serverKdc: Option<Octets>, r: Randomness, now: int,
    a: State, x: Connection, b: State, y: Connection)
    requires Carried(w, c, id) && Nonces(r) && RunHandshake(w, c, domain, id, serverKdc, r, now).Ok?
    requires OfRun(RunHandshake(w, c, domain, id, serverKdc, r, now).value, c, x, y) && Installs(a, x) && Installs(b, y)
    requires a.encryptionType != 2 && !NodeKey(a.keyId) && b.encryptionType != 2 && !NodeKey(b.keyId)
    requires y.peerDomain == Some(x.selfDomain)
    ensures RootsMirror(Applied(a, x).0, Applied(b, y).0)
            <==> c.kdcKey == serverKdc && x.peerDomain == Some(y.selfDomain)
  {
    HandshakeAgreement(w, c, domain, id, serverKdc, r, now);
    var o := RunHandshake(w, c, domain, id, serverKdc, r, now).value;
    InstalledKeysMirror(a, x, b, y);
    NamesDecide(o.done.established.root64, o.server.root64, x.selfDomain, x.peerDomain.value, y.selfDomain);
  }
}
