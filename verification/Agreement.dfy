// What the two ends of a completed handshake agree on.
module Agreement {
  import opened Prelude
  import opened Symbols
  import opened Messages
  import opened Extensions
  import Certificate
  import Utf8
  import opened CertificateNames
  import opened Handshake

  /** A certificate that receivers can read, with a serializer that can be undone. */
  ghost predicate Portable(w: World, c: Cert) {
    Certificate.Lawful(w.serializer) && Certificate.WellFormed(c)
  }

  // ----- the server hello on the wire -----

  lemma BuiltHelloOk(
    w: World, domain: string, id: Identity, hello: ClientHello, nonce: Octets, scalar: nat, seed: nat)
    requires |nonce| == NONCE_LEN && BuildServer(w, domain, id, hello, nonce, scalar, seed).Ok?
    ensures var m := BuildServer(w, domain, id, hello, nonce, scalar, seed).value.serverHello;
            ServerHelloOk(m) && m.certificate == id.certificate
  {
  }

  /** The client stores the hello the server sent, with the certificate's source attached. */
  lemma ServerHelloTravels(w: World, state: ServerState)
    requires ServerHelloOk(state.serverHello) && Portable(w, state.serverHello.certificate)
    requires ServerFlight(w, state).Ok?
    ensures StoreServerHello(w, ServerFlight(w, state).value) == Ok(Received(state.serverHello))
  {
    var m := state.serverHello;
    var payload := ServerHelloBytes(w.serializer, m).value;
    var list := [Extension(SERVER_HELLO, payload)];
    ListRoundTrip(list);
    ServerHelloRoundTrip(w.serializer, m, []);
    assert payload + [] == payload;
  }

  lemma ClientHelloTravels(m: ClientHello)
    requires ClientHelloOk(m)
    ensures ParseClientHello(ClientHelloBytes(m)) == Ok(m)
  {
    ClientHelloRoundTrip(m, ClientHelloBytes(m));
  }

  // ----- when the client completes -----

  lemma EstablishSucceeds(
    w: World, domain: string, ch: ClientHello, sh: ServerHello, cf: ClientFinish, kem: Octets, curve: Octets,
    kdc: Option<Octets>)
    requires ClientHelloOk(ch) && FinishOk(cf)
    requires ServerHelloBytes(w.serializer, sh).Ok? && |ServerHelloBytes(w.serializer, sh).value| <= MAX_BLOB
    requires |cf.ciphertext| + 2 <= MAX_BLOB
    ensures Establish(w, domain, ch, sh, cf, kem, curve, kdc).Ok?
  {
    var a, b, c := ClientHelloBytes(ch), ServerHelloBytes(w.serializer, sh).value, ClientFinishBytes(cf).value;
    var list := [a, b, c];
    assert list[1..] == [b, c] && list[1..][1..] == [c] && list[1..][1..][1..] == [];
    assert Frame([c]).Ok?;
    assert Frame([b, c]).Ok?;
    assert Frame(list).Ok?;
  }

  lemma UnsignedIgnoresSignature(s: Serializer, m: ServerHello)
    ensures ServerHelloUnsigned(s, m) == ServerHelloUnsigned(s, m.(signature := []))
  {
  }

  lemma BuiltHello(
    w: World, domain: string, id: Identity, hello: ClientHello, nonce: Octets, scalar: nat, seed: nat,
    server: ServerState)
    requires BuildServer(w, domain, id, hello, nonce, scalar, seed) == Ok(server)
    ensures var unsigned := UnsignedHello(id, nonce, scalar, seed);
            var octets := ServerHelloUnsigned(w.serializer, unsigned);
            && ALGORITHM in id.privateKeys && octets.Ok?
            && server.serverHello == unsigned.(signature := Sign(id.privateKeys[ALGORITHM],
                 ServerMessage(domain, ClientHelloBytes(hello), octets.value)))
  {
  }

  lemma BuiltSignature(
    w: World, domain: string, id: Identity, hello: ClientHello, nonce: Octets, scalar: nat, seed: nat,
    server: ServerState)
    requires BuildServer(w, domain, id, hello, nonce, scalar, seed) == Ok(server)
    ensures var octets := ServerHelloUnsigned(w.serializer, server.serverHello);
            && octets.Ok? && ALGORITHM in id.privateKeys
            && server.serverHello.signature
               == Sign(id.privateKeys[ALGORITHM], ServerMessage(domain, ClientHelloBytes(hello), octets.value))
  {
    BuiltHello(w, domain, id, hello, nonce, scalar, seed, server);
    UnsignedIgnoresSignature(w.serializer, server.serverHello);
    assert server.serverHello.(signature := []) == UnsignedHello(id, nonce, scalar, seed);
  }

  /** The server's signature, as a client checks it against its own domain and its own view of the hellos. */
  lemma HelloSignature(
    seed: nat, domain: string, hello: Octets, unsigned: Octets,
    effective: string, seenHello: Octets, seenUnsigned: Octets, key: Octets)
    ensures Verify(ServerMessage(effective, seenHello, seenUnsigned),
                   Sign(seed, ServerMessage(domain, hello, unsigned)), key)
            <==> && key == SignPublicKey(seed) && effective == domain && seenHello == hello
                 && seenUnsigned == unsigned
  {
    VerifySigned(seed, ServerMessage(domain, hello, unsigned), key,
                 ServerMessage(effective, seenHello, seenUnsigned));
    ServerMessageBinds(effective, seenHello, seenUnsigned, domain, hello, unsigned);
  }

  lemma DefaultAlgorithmNormal()
    ensures Certificate.Normalize(ALGORITHM) == ALGORITHM
  {
    assert Certificate.Casefold(ALGORITHM) == ALGORITHM;
    assert |"dilithium2"| == 10 && |"dilithium3"| == 10 && |"dilithium5"| == 10 && |ALGORITHM| == 9;
  }

  lemma CanEstablish(
    w: World, domain: string, state: ClientState, hello: ServerHello, kdcKey: Option<Octets>, coins: nat)
    requires ClientHelloOk(state.hello)
    requires ServerHelloBytes(w.serializer, hello).Ok? && |ServerHelloBytes(w.serializer, hello).value| <= MAX_BLOB
    ensures var (ciphertext, kemSecret) := Encapsulate(hello.kemKey, coins);
            Establish(w, domain, state.hello, hello, ClientFinish(ciphertext), kemSecret,
                      XExchange(state.scalar, hello.point), kdcKey).Ok?
  {
    var (ciphertext, kemSecret) := Encapsulate(hello.kemKey, coins);
    EstablishSucceeds(w, domain, state.hello, hello, ClientFinish(ciphertext), kemSecret,
                      XExchange(state.scalar, hello.point), kdcKey);
  }

  lemma FlightFits(w: World, state: ServerState)
    requires ServerFlight(w, state).Ok?
    ensures var hello := ServerHelloBytes(w.serializer, state.serverHello);
            hello.Ok? && |hello.value| <= MAX_BLOB
  {
    ListRoundTrip([Extension(SERVER_HELLO, ServerHelloBytes(w.serializer, state.serverHello).value)]);
  }

  /** With a full-length KEM key and a transcript that can be framed, three checks decide. */
  lemma CompletesWhen(
    w: World, domain: string, state: ClientState, hello: ServerHello, authorityKey: Octets, now: int,
    kdcKey: Option<Octets>, coins: nat, unsigned: Octets)
    requires ClientHelloOk(state.hello) && |hello.kemKey| == 1568 && Supported(w, hello.algorithm)
    requires ServerHelloUnsigned(w.serializer, hello) == Ok(unsigned)
    requires ServerHelloBytes(w.serializer, hello).Ok? && |ServerHelloBytes(w.serializer, hello).value| <= MAX_BLOB
    ensures var key := Certificate.PublicKey(hello.certificate, hello.algorithm);
            CompleteClient(w, domain, state, hello, authorityKey, now, kdcKey, coins).Ok?
            <==> && CertificateValid(w, domain, hello.certificate, authorityKey, now) && key.Some?
                 && SignatureValid(w, hello.algorithm, ServerMessage(domain, ClientHelloBytes(state.hello), unsigned),
                                   hello.signature, key.value)
  {
    CanEstablish(w, domain, state, hello, kdcKey, coins);
  }

  lemma BuiltParts(
    w: World, domain: string, id: Identity, hello: ClientHello, nonce: Octets, scalar: nat, seed: nat,
    server: ServerState)
    requires BuildServer(w, domain, id, hello, nonce, scalar, seed) == Ok(server)
    ensures var m := server.serverHello;
            && m.certificate == id.certificate && m.kemKey == KemPublicKey(seed) && m.algorithm == ALGORITHM
            && Supported(w, ALGORITHM) && ALGORITHM in id.privateKeys
            && Certificate.PublicKey(id.certificate, ALGORITHM).Some?
            && m.nonce == nonce && m.point == XPublic(scalar)
    ensures server.clientHello == hello && server.kemSeed == seed
    ensures server.curveSecret == XExchange(scalar, hello.point)
  {
  }

  lemma ReceivedValid(w: World, c: Cert, domain: string, authorityKey: Octets, now: int)
    requires Portable(w, c)
    ensures CertificateValid(w, domain, c.(sourceData := Some(Certificate.Data(c))), authorityKey, now)
            <==> CertificateValid(w, domain, c, authorityKey, now)
  {
    Certificate.BytesRoundTrip(w.serializer, c);
  }

  /** The client completes with the hello it received from an honest server exactly when the certificate is valid for
      the domain it expects, holds the server's own key, and that domain is the one the server signed for. */
  lemma AcceptsHelloExactly(
    w: World, domain: string, id: Identity, state: ClientState, nonce: Octets, scalar: nat, seed: nat,
    effective: string, authorityKey: Octets, now: int, kdcKey: Option<Octets>, coins: nat)
    requires ClientHelloOk(state.hello) && |nonce| == NONCE_LEN && Portable(w, id.certificate)
    requires BuildServer(w, domain, id, state.hello, nonce, scalar, seed).Ok?
    requires ServerFlight(w, BuildServer(w, domain, id, state.hello, nonce, scalar, seed).value).Ok?
    ensures var m := BuildServer(w, domain, id, state.hello, nonce, scalar, seed).value.serverHello;
            CompleteClient(w, effective, state, Received(m), authorityKey, now, kdcKey, coins).Ok?
            <==> && CertificateValid(w, effective, id.certificate, authorityKey, now) && Matching(id)
                 && effective == domain
  {
    var server := BuildServer(w, domain, id, state.hello, nonce, scalar, seed).value;
    var m := server.serverHello;
    BuiltParts(w, domain, id, state.hello, nonce, scalar, seed, server);
    ReceivedEncodesAlike(w.serializer, m);
    ReceivedValid(w, id.certificate, effective, authorityKey, now);
    FlightFits(w, server);
    DefaultAlgorithmNormal();
    var unsigned := ServerHelloUnsigned(w.serializer, m).value;
    BuiltSignature(w, domain, id, state.hello, nonce, scalar, seed, server);
    HelloSignature(id.privateKeys[ALGORITHM], domain, ClientHelloBytes(state.hello), unsigned,
                   effective, ClientHelloBytes(state.hello), unsigned,
                   Certificate.PublicKey(id.certificate, ALGORITHM).value);
    CompletesWhen(w, effective, state, Received(m), authorityKey, now, kdcKey, coins, unsigned);
  }

  // ----- transcripts and roots -----

  /** Two views, whatever the network did to them, give one root exactly when they agree on the domain,
      on every message as it was encoded, on both secrets and on the optional KDC key. */
  lemma RootsAgreeExactly(
    w: World, d1: string, ch1: ClientHello, sh1: ServerHello, cf1: ClientFinish, kem1: Octets, curve1: Octets,
    kdc1: Option<Octets>, d2: string, ch2: ClientHello, sh2: ServerHello, cf2: ClientFinish, kem2: Octets,
    curve2: Octets, kdc2: Option<Octets>)
    requires ClientHelloOk(ch1) && ClientHelloOk(ch2) && ServerHelloOk(sh1) && ServerHelloOk(sh2)
    requires |kem1| == 32 && |kem2| == 32 && |curve1| == 32 && |curve2| == 32
    requires Establish(w, d1, ch1, sh1, cf1, kem1, curve1, kdc1).Ok?
    requires Establish(w, d2, ch2, sh2, cf2, kem2, curve2, kdc2).Ok?
    ensures Establish(w, d1, ch1, sh1, cf1, kem1, curve1, kdc1).value.root64
            == Establish(w, d2, ch2, sh2, cf2, kem2, curve2, kdc2).value.root64
            <==> && d1 == d2 && ch1 == ch2 && cf1 == cf2 && kem1 == kem2 && curve1 == curve2 && kdc1 == kdc2
                 && ServerHelloBytes(w.serializer, sh1) == ServerHelloBytes(w.serializer, sh2)
  {
    var e1, e2 := Establish(w, d1, ch1, sh1, cf1, kem1, curve1, kdc1).value,
                  Establish(w, d2, ch2, sh2, cf2, kem2, curve2, kdc2).value;
    var s1, s2 := ServerHelloBytes(w.serializer, sh1).value, ServerHelloBytes(w.serializer, sh2).value;
    var p1, p2 := [ClientHelloBytes(ch1), s1, ClientFinishBytes(cf1).value],
                  [ClientHelloBytes(ch2), s2, ClientFinishBytes(cf2).value];
    RootBinds(RootInputs(d1, ch1.nonce, sh1.nonce, kem1, curve1, e1.transcript, kdc1),
              RootInputs(d2, ch2.nonce, sh2.nonce, kem2, curve2, e2.transcript, kdc2));
    TranscriptBinds(d1, p1, d2, p2);
    if e1.root64 == e2.root64 {
      assert p1[0] == p2[0] && p1[1] == p2[1] && p1[2] == p2[2];
      ClientHelloTravels(ch1);
      ClientHelloTravels(ch2);
      WholeBlob(cf1.ciphertext, []);
      WholeBlob(cf2.ciphertext, []);
    }
    if s1 == s2 {
      HelloNonceFirst(w, sh1);
      HelloNonceFirst(w, sh2);
    }
  }

  lemma HelloNonceFirst(w: World, m: ServerHello)
    requires ServerHelloOk(m) && ServerHelloBytes(w.serializer, m).Ok?
    ensures |ServerHelloBytes(w.serializer, m).value| >= 32 && ServerHelloBytes(w.serializer, m).value[..32] == m.nonce
  {
    HelloBytesShape(w.serializer, m);
  }

  /** Both ends compute the same two secrets. */
  lemma SecretsAgree(clientScalar: nat, serverScalar: nat, seed: nat, coins: nat)
    ensures XExchange(clientScalar, XPublic(serverScalar)) == XExchange(serverScalar, XPublic(clientScalar))
    ensures var (ciphertext, secret) := Encapsulate(KemPublicKey(seed), coins);
            Decapsulate(seed, ciphertext) == secret
  {
    ExchangeCommutes(clientScalar, serverScalar);
    DecapsulateEncapsulated(seed, coins);
  }

  lemma EstablishReceived(
    w: World, domain: string, ch: ClientHello, sh: ServerHello, cf: ClientFinish, kem: Octets, curve: Octets,
    kdc: Option<Octets>)
    requires Certificate.Lawful(w.serializer) && Certificate.WellFormed(sh.certificate)
    ensures Establish(w, domain, ch, Received(sh), cf, kem, curve, kdc)
            == Establish(w, domain, ch, sh, cf, kem, curve, kdc)
  {
    ReceivedEncodesAlike(w.serializer, sh);
  }

  predicate Nonces(r: Randomness) {
    |r.clientNonce| == NONCE_LEN && |r.serverNonce| == NONCE_LEN
  }

  /** The server answered this client, and its flight can be sent. */
  ghost predicate Answered(
    w: World, domain: string, id: Identity, r: Randomness, client: ClientState, server: ServerState)
  {
    && Nonces(r) && Portable(w, id.certificate)
    && client == BuildClient(r.clientNonce, r.clientScalar)
    && BuildServer(w, domain, id, client.hello, r.serverNonce, r.serverScalar, r.kemSeed) == Ok(server)
    && ServerFlight(w, server).Ok?
  }

  /** The secrets of a run, as either end computes them. */
  function RunKem(r: Randomness): (Octets, Octets) {
    Encapsulate(KemPublicKey(r.kemSeed), r.coins)
  }

  function RunCurve(r: Randomness): Octets {
    XExchange(r.clientScalar, XPublic(r.serverScalar))
  }

  lemma CompletedParts(
    w: World, domain: string, client: ClientState, hello: ServerHello, authorityKey: Octets, now: int,
    kdc: Option<Octets>, coins: nat, done: Completion)
    requires CompleteClient(w, domain, client, hello, authorityKey, now, kdc, coins) == Ok(done)
             && |hello.kemKey| == 1568
    ensures done.finish == ClientFinish(Encapsulate(hello.kemKey, coins).0)
    ensures Establish(w, domain, client.hello, hello, done.finish, Encapsulate(hello.kemKey, coins).1,
                      XExchange(client.scalar, hello.point), kdc) == Ok(done.established)
    ensures done.commit == CommitFor(done.established.root64, done.established.transcript)
  {
  }

  lemma AnsweredParts(w: World, domain: string, id: Identity, r: Randomness, client: ClientState, server: ServerState)
    requires Answered(w, domain, id, r, client, server)
    ensures var m := server.serverHello;
            && ServerHelloOk(m) && ClientHelloOk(client.hello) && m.certificate == id.certificate
            && m.kemKey == KemPublicKey(r.kemSeed) && m.point == XPublic(r.serverScalar)
    ensures server.clientHello == client.hello && server.kemSeed == r.kemSeed
    ensures server.curveSecret == XExchange(r.serverScalar, XPublic(r.clientScalar)) && client.scalar == r.clientScalar
  {
    BuiltParts(w, domain, id, client.hello, r.serverNonce, r.serverScalar, r.kemSeed, server);
  }

  lemma ServerEstablishes(w: World, domain: string, server: ServerState, finish: ClientFinish, kdc: Option<Octets>)
    requires |finish.ciphertext| == 1568
    ensures CompleteServer(w, domain, server, finish, kdc)
            == Establish(w, domain, server.clientHello, server.serverHello, finish,
                         Decapsulate(server.kemSeed, finish.ciphertext), server.curveSecret, kdc)
  {
  }

  lemma ClientView(
    w: World, domain: string, id: Identity, r: Randomness, client: ClientState, server: ServerState,
    authorityKey: Octets, now: int, kdc: Option<Octets>, done: Completion)
    requires Answered(w, domain, id, r, client, server)
    requires CompleteClient(w, domain, client, Received(server.serverHello), authorityKey, now, kdc, r.coins)
             == Ok(done)
    ensures done.finish == ClientFinish(RunKem(r).0)
    ensures Establish(w, domain, client.hello, server.serverHello, done.finish, RunKem(r).1, RunCurve(r), kdc)
            == Ok(done.established)
    ensures done.commit == CommitFor(done.established.root64, done.established.transcript)
  {
    AnsweredParts(w, domain, id, r, client, server);
    CompletedParts(w, domain, client, Received(server.serverHello), authorityKey, now, kdc, r.coins, done);
    EstablishReceived(w, domain, client.hello, server.serverHello, done.finish, RunKem(r).1, RunCurve(r), kdc);
  }

  lemma ServerView(
    w: World, domain: string, id: Identity, r: Randomness, client: ClientState, server: ServerState,
    finish: ClientFinish,
    kdc: Option<Octets>)
    requires Answered(w, domain, id, r, client, server) && finish == ClientFinish(RunKem(r).0)
    ensures CompleteServer(w, domain, server, finish, kdc)
            == Establish(w, domain, client.hello, server.serverHello, finish, RunKem(r).1, RunCurve(r), kdc)
    ensures ServerHelloOk(server.serverHello) && ClientHelloOk(client.hello)
  {
    AnsweredParts(w, domain, id, r, client, server);
    SecretsAgree(r.clientScalar, r.serverScalar, r.kemSeed, r.coins);
    ServerEstablishes(w, domain, server, finish, kdc);
  }

  lemma KdcDecides(
    w: World, domain: string, ch: ClientHello, sh: ServerHello, cf: ClientFinish, kem: Octets, curve: Octets,
    kdc1: Option<Octets>, kdc2: Option<Octets>)
    requires ClientHelloOk(ch) && ServerHelloOk(sh) && |kem| == 32 && |curve| == 32
    requires Establish(w, domain, ch, sh, cf, kem, curve, kdc1).Ok?
    ensures var (e1, e2) := (Establish(w, domain, ch, sh, cf, kem, curve, kdc1),
                             Establish(w, domain, ch, sh, cf, kem, curve, kdc2));
            && e2.Ok? && e1.value.transcript == e2.value.transcript
            && (e1.value.root64 == e2.value.root64 <==> kdc1 == kdc2)
  {
    RootsAgreeExactly(w, domain, ch, sh, cf, kem, curve, kdc1, domain, ch, sh, cf, kem, curve, kdc2);
  }

  /** A completed client and its server share the transcript; they share the root, and accept each
      other's commit, exactly when they hold the same optional KDC key. */
  lemma EndsAgree(
    w: World, domain: string, id: Identity, r: Randomness, client: ClientState, server: ServerState,
    authorityKey: Octets, now: int, clientKdc: Option<Octets>, serverKdc: Option<Octets>, done: Completion)
    requires Answered(w, domain, id, r, client, server)
    requires CompleteClient(w, domain, client, Received(server.serverHello), authorityKey, now, clientKdc, r.coins)
             == Ok(done)
    ensures var established := CompleteServer(w, domain, server, done.finish, serverKdc);
            && established.Ok? && established.value.transcript == done.established.transcript
            && (established.value.root64 == done.established.root64 <==> clientKdc == serverKdc)
            && (CommitVerifies(established.value.root64, done.commit) <==> clientKdc == serverKdc)
  {
    ClientView(w, domain, id, r, client, server, authorityKey, now, clientKdc, done);
    ServerView(w, domain, id, r, client, server, done.finish, serverKdc);
    KdcDecides(w, domain, client.hello, server.serverHello, done.finish, RunKem(r).1, RunCurve(r), clientKdc,
               serverKdc);
    var established := CompleteServer(w, domain, server, done.finish, serverKdc).value;
    CommitBindsRoot(done.established.root64, done.established.transcript, established.root64);
  }

  // ----- the client's certificate -----

  /** The name the client goes by: its configured domain, or else the name in its certificate. */
  function LocalName(c: ClientSettings): Option<string> {
    if c.clientDomain.Some? && c.clientDomain.value != "" then c.clientDomain
    else if c.identity.Some? then Some(c.identity.value.certificate.name)
    else None
  }

  /** The claimed domain the server reads off the wire. */
  function Claimed(c: ClientSettings): Option<string> {
    if c.clientDomain.Some? && c.clientDomain.value != "" then c.clientDomain else None
  }

  lemma ClaimTravels(c: ClientSettings)
    ensures var p := DomainPayload(c);
            var text := if p.None? then Some("") else AsText(p.value);
            text.Some? && (if text.value == "" then None else text) == Claimed(c)
  {
    if DomainPayload(c).Some? {
      AsTextOfText(c.clientDomain.value);
    }
  }

  /** A certificate is valid for its own name. */
  predicate SelfValid(w: World, c: Cert, now: int) {
    var authorityKey := w.authority(c.centerDomain, c.keyVersion);
    && c.name != "" && ',' !in c.name && Strip(c.name) == c.name
    && authorityKey.Some? && now <= c.expiresAt.instant && Supported(w, ALGORITHM)
    && Verify(Certificate.UnsignedBytes(w.serializer, c), c.signature, authorityKey.value)
  }

  /** The conditions under which a client's certificate is accepted. */
  predicate ClientAcceptable(w: World, c: ClientSettings, id: Identity, now: int) {
    && SelfValid(w, id.certificate, now) && Matching(id)
    && (Claimed(c).Some? ==> Covers(w.matcher, id.certificate.name, Claimed(c).value))
  }

  lemma SelfValidExactly(w: World, c: Cert, now: int)
    requires w.authority(c.centerDomain, c.keyVersion).Some?
    ensures CertificateValid(w, c.name, c, w.authority(c.centerDomain, c.keyVersion).value, now)
            <==> SelfValid(w, c, now)
  {
    CoversItself(w.matcher, c.name);
  }

  /** The certificate as the server reads it off the wire. */
  function Sourced(c: Cert): Cert {
    c.(sourceData := Some(Certificate.Data(c)))
  }

  lemma SourcedSame(w: World, id: Identity, now: int)
    requires Portable(w, id.certificate)
    ensures Certificate.UnsignedBytes(w.serializer, Sourced(id.certificate))
            == Certificate.UnsignedBytes(w.serializer, id.certificate)
    ensures SelfValid(w, Sourced(id.certificate), now) <==> SelfValid(w, id.certificate, now)
  {
    Certificate.BytesRoundTrip(w.serializer, id.certificate);
  }

  lemma SignedBy(w: World, id: Identity, message: Octets)
    requires ALGORITHM in id.privateKeys
    ensures var key := Certificate.PublicKey(id.certificate, ALGORITHM);
            Matching(id)
            <==> key.Some? && SignatureValid(w, ALGORITHM, message, Sign(id.privateKeys[ALGORITHM], message), key.value)
  {
    DefaultAlgorithmNormal();
    var key := Certificate.PublicKey(id.certificate, ALGORITHM);
    if key.Some? {
      VerifySigned(id.privateKeys[ALGORITHM], message, key.value, message);
    }
  }

  /** What the client signs, from the server's view. */
  function SignedByClient(w: World, state: ServerState, c: Cert, finish: ClientFinish): Octets
    requires ServerHelloBytes(w.serializer, state.serverHello).Ok? && ClientFinishBytes(finish).Ok?
  {
    ClientMessage(c.name, ClientHelloBytes(state.clientHello), ServerHelloBytes(w.serializer, state.serverHello).value,
                  ClientFinishBytes(finish).value, Certificate.UnsignedBytes(w.serializer, c))
  }

  /** The server accepts the signed flight of a client that saw its hello exactly when the certificate is acceptable,
      and then authenticates the name the client goes by. */
  lemma AuthenticatesExactly(
    w: World, c: ClientSettings, id: Identity, state: ServerState, finish: ClientFinish, now: int)
    requires c.identity == Some(id) && Portable(w, id.certificate) && ALGORITHM in id.privateKeys
    requires ServerHelloBytes(w.serializer, state.serverHello).Ok? && ClientFinishBytes(finish).Ok?
    ensures var signature := Sign(id.privateKeys[ALGORITHM], SignedByClient(w, state, id.certificate, finish));
            var r := Authenticate(w, state, Claimed(c),
                                  Certified(Sourced(id.certificate), finish, ALGORITHM, signature), now);
            && (r.Ok? <==> ClientAcceptable(w, c, id, now))
            && (r.Ok? ==> r.value == LocalName(c))
  {
    SourcedSame(w, id, now);
    SignedBy(w, id, SignedByClient(w, state, id.certificate, finish));
    if w.authority(id.certificate.centerDomain, id.certificate.keyVersion).Some? {
      SelfValidExactly(w, Sourced(id.certificate), now);
    }
  }

  // ----- the whole run -----

  lemma ClientExtensionsFound(c: ClientSettings, hello: ClientHello)
    ensures Find(ClientExtensions(c, hello), CLIENT_HELLO) == Some(ClientHelloBytes(hello))
    ensures Find(ClientExtensions(c, hello), CLIENT_DOMAIN) == DomainPayload(c)
            == if c.clientDomain.Some? && c.clientDomain.value != "" then Some(Text(c.clientDomain.value)) else None
  {
    var list := ClientExtensions(c, hello);
    assert list[1..] == if DomainPayload(c).Some? then [Extension(CLIENT_DOMAIN, DomainPayload(c).value)] else [];
  }

  /** The offer is that of the hello and domain the client sent. */
  lemma OfferIs(w: World, c: ClientSettings, domain: string, id: Identity, r: Randomness)
    requires Nonces(r) && ServerAnswers(w, c, domain, id, r).Ok?
    ensures var hello := BuildClient(r.clientNonce, r.clientScalar).hello;
            var built := BuildServer(w, domain, id, hello, r.serverNonce, r.serverScalar, r.kemSeed);
            built.Ok? && ServerAnswers(w, c, domain, id, r).value == Offer(built.value, Claimed(c))
  {
    var hello := BuildClient(r.clientNonce, r.clientScalar).hello;
    ClientExtensionsFound(c, hello);
    ClientHelloTravels(hello);
    ClaimTravels(c);
  }

  /** The server takes the client's entry exactly when the client is anonymous or its certificate is acceptable. */
  lemma EntryTaken(w: World, c: ClientSettings, client: ClientState, server: ServerState, done: Completion, now: int)
    requires c.identity.Some? ==> Portable(w, c.identity.value.certificate)
    requires Certificate.Lawful(w.serializer) && Certificate.WellFormed(server.serverHello.certificate)
    requires server.clientHello == client.hello && FinishOk(done.finish)
    requires ServerHelloBytes(w.serializer, server.serverHello).Ok?
    requires ClientEntry(w, c, client, Received(server.serverHello), done).Ok?
    ensures var entry := ClientEntry(w, c, client, Received(server.serverHello), done).value;
            var flight := ReadFlight(w.serializer, entry);
            && flight.Ok? && flight.value.finish == done.finish
            && var r := Authenticate(w, server, Claimed(c), flight.value, now);
            && (r.Ok? <==> c.identity.None? || ClientAcceptable(w, c, c.identity.value, now))
            && (r.Ok? ==> r.value == (if c.identity.None? then None else LocalName(c)))
  {
    ReceivedEncodesAlike(w.serializer, server.serverHello);
    var finish := ClientFinishBytes(done.finish).value;
    if c.identity.None? {
      AnonymousFlightRoundTrip(w.serializer, done.finish);
    } else {
      var id := c.identity.value;
      var message := SignedByClient(w, server, id.certificate, done.finish);
      CertifiedFlightRoundTrip(w.serializer, id.certificate, done.finish, ALGORITHM,
                               Sign(id.privateKeys[ALGORITHM], message));
      AuthenticatesExactly(w, c, id, server, done.finish, now);
    }
  }

  lemma FinishedParts(
    w: World, c: ClientSettings, client: ClientState, hello: ServerHello, now: int, coins: nat, done: Completion,
    entry: Entry)
    returns (domain: string, authorityKey: Octets)
    requires ClientFinished(w, c, client, hello, now, coins) == Ok((done, entry))
    ensures domain == EffectiveDomain(c, hello)
    ensures w.authority(hello.certificate.centerDomain, hello.certificate.keyVersion) == Some(authorityKey)
    ensures CompleteClient(w, domain, client, hello, authorityKey, now, c.kdcKey, coins) == Ok(done)
    ensures ClientEntry(w, c, client, hello, done) == Ok(entry)
  {
    domain := EffectiveDomain(c, hello);
    authorityKey := w.authority(hello.certificate.centerDomain, hello.certificate.keyVersion).value;
  }

  /** The client's half of a run: its domain is the server's. */
  lemma ClientHalf(
    w: World, c: ClientSettings, domain: string, id: Identity, r: Randomness, now: int,
    client: ClientState, server: ServerState, done: Completion, entry: Entry)
    requires Answered(w, domain, id, r, client, server)
    requires ClientFinished(w, c, client, Received(server.serverHello), now, r.coins) == Ok((done, entry))
    ensures EffectiveDomain(c, Received(server.serverHello)) == domain
  {
    var effective, authorityKey := FinishedParts(w, c, client, Received(server.serverHello), now, r.coins, done, entry);
    AcceptsHelloExactly(w, domain, id, client, r.serverNonce, r.serverScalar, r.kemSeed,
                           effective, authorityKey, now, c.kdcKey, r.coins);
  }

  lemma ClientCompleted(
    w: World, c: ClientSettings, domain: string, id: Identity, serverKdc: Option<Octets>, r: Randomness, now: int,
    client: ClientState, server: ServerState, done: Completion, entry: Entry)
    requires Answered(w, domain, id, r, client, server)
    requires ClientFinished(w, c, client, Received(server.serverHello), now, r.coins) == Ok((done, entry))
    ensures var established := CompleteServer(w, domain, server, done.finish, serverKdc);
            && established.Ok? && established.value.transcript == done.established.transcript
            && (established.value.root64 == done.established.root64 <==> c.kdcKey == serverKdc)
            && (CommitVerifies(established.value.root64, done.commit) <==> c.kdcKey == serverKdc)
  {
    ClientHalf(w, c, domain, id, r, now, client, server, done, entry);
    var effective, authorityKey := FinishedParts(w, c, client, Received(server.serverHello), now, r.coins, done, entry);
    EndsAgree(w, domain, id, r, client, server, authorityKey, now, c.kdcKey, serverKdc, done);
  }

  lemma HandledAs(
    w: World, domain: string, offer: Offer, kdcKey: Option<Octets>, entry: Entry, now: int, flight: Flight,
    established: Established)
    requires ReadFlight(w.serializer, entry) == Ok(flight)
    requires CompleteServer(w, domain, offer.state, flight.finish, kdcKey) == Ok(established)
    ensures var a := Authenticate(w, offer.state, offer.claimed, flight, now);
            var end := HandleCertificate(w, domain, offer, kdcKey, entry, now);
            && (end.Ok? <==> a.Ok?) && (a.Ok? ==> end == Ok((established, a.value)))
  {
  }

  lemma AnsweredEncodes(w: World, domain: string, id: Identity, r: Randomness, client: ClientState, server: ServerState)
    requires Answered(w, domain, id, r, client, server)
    ensures ServerHelloBytes(w.serializer, server.serverHello).Ok? && server.clientHello == client.hello
    ensures Certificate.Lawful(w.serializer) && Certificate.WellFormed(server.serverHello.certificate)
  {
  }

  /** The server's half of a run: it fails only over the client's certificate. */
  lemma ServerHalf(
    w: World, c: ClientSettings, domain: string, id: Identity, serverKdc: Option<Octets>, r: Randomness, now: int,
    client: ClientState, server: ServerState, done: Completion, entry: Entry)
    requires Answered(w, domain, id, r, client, server)
    requires c.identity.Some? ==> Portable(w, c.identity.value.certificate)
    requires ClientFinished(w, c, client, Received(server.serverHello), now, r.coins) == Ok((done, entry))
    ensures var end := HandleCertificate(w, domain, Offer(server, Claimed(c)), serverKdc, entry, now);
            && (end.Ok? <==> c.identity.None? || ClientAcceptable(w, c, c.identity.value, now))
            && (end.Ok? ==>
                  && end.value.0.transcript == done.established.transcript
                  && (end.value.0.root64 == done.established.root64 <==> c.kdcKey == serverKdc)
                  && (CommitVerifies(end.value.0.root64, done.commit) <==> c.kdcKey == serverKdc)
                  && end.value.1 == (if c.identity.None? then None else LocalName(c)))
  {
    var effective, authorityKey := FinishedParts(w, c, client, Received(server.serverHello), now, r.coins, done, entry);
    AnsweredEncodes(w, domain, id, r, client, server);
    ClientCompleted(w, c, domain, id, serverKdc, r, now, client, server, done, entry);
    EntryTaken(w, c, client, server, done, now);
    HandledAs(w, domain, Offer(server, Claimed(c)), serverKdc, entry, now, ReadFlight(w.serializer, entry).value,
              CompleteServer(w, domain, server, done.finish, serverKdc).value);
  }

  /** What of a run precedes the client's Finished. */
  lemma RunBegins(w: World, c: ClientSettings, domain: string, id: Identity, r: Randomness)
    requires Portable(w, id.certificate) && Nonces(r) && ServerAnswers(w, c, domain, id, r).Ok?
    requires ServerFlight(w, ServerAnswers(w, c, domain, id, r).value.state).Ok?
    ensures var server := ServerAnswers(w, c, domain, id, r).value.state;
            && ServerAnswers(w, c, domain, id, r) == Ok(Offer(server, Claimed(c)))
            && Answered(w, domain, id, r, BuildClient(r.clientNonce, r.clientScalar), server)
            && StoreServerHello(w, ServerFlight(w, server).value) == Ok(Received(server.serverHello))
            && server.serverHello.certificate == id.certificate
  {
    OfferIs(w, c, domain, id, r);
    var server := ServerAnswers(w, c, domain, id, r).value.state;
    var hello := BuildClient(r.clientNonce, r.clientScalar).hello;
    BuiltHelloOk(w, domain, id, hello, r.serverNonce, r.serverScalar, r.kemSeed);
    ServerHelloTravels(w, server);
  }

  // ----- when the client finishes -----

  /** The authority of the server's certificate is known, and the certificate is valid and the server's own. */
  predicate ServerAcceptable(w: World, domain: string, id: Identity, now: int) {
    var authorityKey := w.authority(id.certificate.centerDomain, id.certificate.keyVersion);
    authorityKey.Some? && CertificateValid(w, domain, id.certificate, authorityKey.value, now) && Matching(id)
  }

  lemma EntryCanBeSent(w: World, c: ClientSettings, client: ClientState, hello: ServerHello, done: Completion)
    requires ServerHelloBytes(w.serializer, hello).Ok? && |done.finish.ciphertext| == 1568
    ensures ClientEntry(w, c, client, hello, done).Ok?
            <==> c.identity.None? || ALGORITHM in c.identity.value.privateKeys
  {
    if c.identity.Some? && ALGORITHM in c.identity.value.privateKeys {
      var id := c.identity.value;
      var finish := ClientFinishBytes(done.finish).value;
      var message := ClientMessage(id.certificate.name, ClientHelloBytes(client.hello),
                                   ServerHelloBytes(w.serializer, hello).value, finish,
                                   Certificate.UnsignedBytes(w.serializer, id.certificate));
      SignedListFits(finish, Sign(id.privateKeys[ALGORITHM], message));
    }
  }

  lemma SignedListFits(finish: Octets, signature: Octets)
    requires |finish| == 1570 && |signature| == 4627
    ensures EncodeList(SignedList(finish, ALGORITHM, signature)).Ok?
  {
    Utf8.EncodedLength(ALGORITHM);
    assert |ALGORITHM| == 9;
    ListRoundTrip(SignedList(finish, ALGORITHM, signature));
  }

  /** Once the server's flight is out, the client finishes exactly when it accepts the server and can sign. */
  lemma FinishesExactly(
    w: World, c: ClientSettings, domain: string, id: Identity, r: Randomness, now: int, client: ClientState,
    server: ServerState)
    requires Answered(w, domain, id, r, client, server)
    ensures ClientFinished(w, c, client, Received(server.serverHello), now, r.coins).Ok?
            <==> && ServerAcceptable(w, domain, id, now) && EffectiveDomain(c, Received(server.serverHello)) == domain
                 && (c.identity.None? || ALGORITHM in c.identity.value.privateKeys)
  {
    var hello := Received(server.serverHello);
    AnsweredParts(w, domain, id, r, client, server);
    AnsweredEncodes(w, domain, id, r, client, server);
    ReceivedEncodesAlike(w.serializer, server.serverHello);
    var authorityKey := w.authority(id.certificate.centerDomain, id.certificate.keyVersion);
    if authorityKey.Some? {
      AcceptsHelloExactly(w, domain, id, client, r.serverNonce, r.serverScalar, r.kemSeed,
                             EffectiveDomain(c, hello), authorityKey.value, now, c.kdcKey, r.coins);
      var done := CompleteClient(w, EffectiveDomain(c, hello), client, hello, authorityKey.value, now, c.kdcKey,
                                 r.coins);
      if done.Ok? {
        EntryCanBeSent(w, c, client, hello, done.value);
      }
    }
  }
}
