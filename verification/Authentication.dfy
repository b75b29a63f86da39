// What an accepted signature proves of the handshake it was made for, whatever
// the network delivered.
module Authentication {
  import opened Prelude
  import opened Symbols
  import opened Messages
  import opened Extensions
  import Certificate
  import opened CertificateNames
  import opened Handshake
  import opened Agreement

  // ----- the server, as a client sees it -----

  /** The certificate of a hello is good for the domain: an authority that is known to the client signed it, it names
      the domain, and it has not expired. */
  predicate Vouched(w: World, domain: string, c: Cert, authorityKey: Octets, now: int) {
    && authorityKey != [] && authorityKey[0].Out? && authorityKey[0].term.SignPublic?
    && authorityKey == SignPublicKey(authorityKey[0].term.seed)
    && c.signature == Sign(authorityKey[0].term.seed, Certificate.UnsignedBytes(w.serializer, c))
    && now <= c.expiresAt.instant
    && exists i :: && 0 <= i < |Split(c.name)|
                   && PatternCovers(w.matcher, CertificateNames.Strip(Split(c.name)[i]), domain)
  }

  lemma CompletionChecks(
    w: World, domain: string, state: ClientState, hello: ServerHello, authorityKey: Octets, now: int,
    kdcKey: Option<Octets>, coins: nat)
    requires CompleteClient(w, domain, state, hello, authorityKey, now, kdcKey, coins).Ok?
    ensures CertificateValid(w, domain, hello.certificate, authorityKey, now)
    ensures ServerHelloUnsigned(w.serializer, hello).Ok?
    ensures var key := Certificate.PublicKey(hello.certificate, hello.algorithm);
            && key.Some? && Supported(w, hello.algorithm)
            && SignatureValid(w, hello.algorithm,
                              ServerMessage(domain, ClientHelloBytes(state.hello),
                                            ServerHelloUnsigned(w.serializer, hello).value),
                              hello.signature, key.value)
  {
  }

  /** Whatever hello the network delivers: a client that completes has seen a valid certificate for its domain, and a
      signature of the holder of its key, or a verdict of liboqs, on its own hello and on the one delivered. */
  lemma ClientAcceptsOnlySigned(
    w: World, domain: string, state: ClientState, hello: ServerHello, authorityKey: Octets, now: int,
    kdcKey: Option<Octets>, coins: nat)
    requires CompleteClient(w, domain, state, hello, authorityKey, now, kdcKey, coins).Ok?
    ensures Vouched(w, domain, hello.certificate, authorityKey, now)
    ensures ServerHelloUnsigned(w.serializer, hello).Ok?
    ensures var name := Certificate.Normalize(hello.algorithm);
            var key := Certificate.PublicKey(hello.certificate, hello.algorithm);
            var message := ServerMessage(domain, ClientHelloBytes(state.hello),
                                         ServerHelloUnsigned(w.serializer, hello).value);
            && w.setup.enabled(name) && key.Some?
            && (if name == "ml-dsa-87" then
                  exists seed: nat :: key.value == SignPublicKey(seed) && hello.signature == Sign(seed, message)
                else w.verifyOther(name, message, hello.signature, key.value))
  {
    CompletionChecks(w, domain, state, hello, authorityKey, now, kdcKey, coins);
    var key := Certificate.PublicKey(hello.certificate, hello.algorithm).value;
    if Certificate.Normalize(hello.algorithm) == "ml-dsa-87" {
      var seed := key[0].term.seed;
      assert key == SignPublicKey(seed);
    }
  }

  /** A hello that carries a signature made for some domain, client hello and fields is accepted only by a client of
      that domain which sent that client hello, and only with those fields. */
  lemma HelloBoundToSession(
    w: World, domain: string, state: ClientState, hello: ServerHello, authorityKey: Octets, now: int,
    kdcKey: Option<Octets>, coins: nat, seed: nat, signedDomain: string, signedHello: Octets, signedFields: Octets)
    requires CompleteClient(w, domain, state, hello, authorityKey, now, kdcKey, coins).Ok?
    requires Certificate.Normalize(hello.algorithm) == ALGORITHM
    requires hello.signature == Sign(seed, ServerMessage(signedDomain, signedHello, signedFields))
    ensures domain == signedDomain && ClientHelloBytes(state.hello) == signedHello
    ensures ServerHelloUnsigned(w.serializer, hello) == Ok(signedFields)
    ensures Certificate.PublicKey(hello.certificate, hello.algorithm) == Some(SignPublicKey(seed))
  {
    CompletionChecks(w, domain, state, hello, authorityKey, now, kdcKey, coins);
    HelloSignature(seed, signedDomain, signedHello, signedFields, domain, ClientHelloBytes(state.hello),
                   ServerHelloUnsigned(w.serializer, hello).value,
                   Certificate.PublicKey(hello.certificate, hello.algorithm).value);
  }

  /** The octets that are signed tell every field of the hello. */
  lemma UnsignedTellsFields(s: Serializer, a: ServerHello, b: ServerHello)
    requires Certificate.Lawful(s) && Certificate.WellFormed(a.certificate) && Certificate.WellFormed(b.certificate)
    requires ServerHelloOk(a) && ServerHelloOk(b)
    requires ServerHelloUnsigned(s, a).Ok? && ServerHelloUnsigned(s, a) == ServerHelloUnsigned(s, b)
    ensures a.nonce == b.nonce && a.point == b.point && a.kemKey == b.kemKey && a.algorithm == b.algorithm
    ensures Certificate.SameFields(a.certificate, b.certificate) && a.certificate.signature == b.certificate.signature
  {
    var c, d := a.(signature := []), b.(signature := []);
    UnsignedIgnoresSignature(s, a);
    UnsignedIgnoresSignature(s, b);
    assert ServerHelloBytes(s, c) == ServerHelloBytes(s, d);
    assert ServerHelloBytes(s, c).value + [] == ServerHelloBytes(s, c).value;
    ServerHelloRoundTrip(s, c, []);
    ServerHelloRoundTrip(s, d, []);
    assert Received(c) == Received(d);
  }

  /** Whatever octets a client could store as a hello, its fields are complete and its certificate can be sent on. */
  lemma StoredIsOk(w: World, block: Octets)
    requires StoreServerHello(w, block).Ok?
    ensures var hello := StoreServerHello(w, block).value;
            ServerHelloOk(hello) && Certificate.WellFormed(hello.certificate)
  {
    var payload := Find(ParseList(block).value, SERVER_HELLO).value;
    var octets := HelloFields(payload, 64).value.2;
    Certificate.ParsedIsWellFormed(w.serializer.load(octets).value);
  }

  /** The hello of an honest server cannot be altered on the way, nor shown to another client or for another domain:
      if a client accepts octets with its signature in them, they hold that hello, for that client and that domain. */
  lemma HonestHelloUnaltered(
    w: World, domain: string, id: Identity, sent: ClientHello, nonce: Octets, scalar: nat, seed: nat,
    expected: string, state: ClientState, block: Octets, hello: ServerHello, authorityKey: Octets, now: int,
    kdcKey: Option<Octets>, coins: nat)
    requires Portable(w, id.certificate) && ClientHelloOk(sent) && ClientHelloOk(state.hello) && |nonce| == NONCE_LEN
    requires BuildServer(w, domain, id, sent, nonce, scalar, seed).Ok? && StoreServerHello(w, block) == Ok(hello)
    requires hello.signature == BuildServer(w, domain, id, sent, nonce, scalar, seed).value.serverHello.signature
    requires Certificate.Normalize(hello.algorithm) == ALGORITHM
    requires CompleteClient(w, expected, state, hello, authorityKey, now, kdcKey, coins).Ok?
    ensures expected == domain && state.hello == sent
    ensures hello.nonce == nonce && hello.point == XPublic(scalar) && hello.kemKey == KemPublicKey(seed)
    ensures hello.algorithm == ALGORITHM && Certificate.SameFields(hello.certificate, id.certificate)
    ensures hello.certificate.signature == id.certificate.signature
  {
    StoredIsOk(w, block);
    var server := BuildServer(w, domain, id, sent, nonce, scalar, seed).value;
    BuiltSignature(w, domain, id, sent, nonce, scalar, seed, server);
    BuiltParts(w, domain, id, sent, nonce, scalar, seed, server);
    var fields := ServerHelloUnsigned(w.serializer, server.serverHello).value;
    HelloBoundToSession(w, expected, state, hello, authorityKey, now, kdcKey, coins, id.privateKeys[ALGORITHM],
                        domain, ClientHelloBytes(sent), fields);
    ClientHelloTravels(sent);
    ClientHelloTravels(state.hello);
    UnsignedTellsFields(w.serializer, hello, server.serverHello);
  }

  // ----- the client, as a server sees it -----

  lemma AuthenticationChecks(w: World, state: ServerState, claimed: Option<string>, f: Flight, now: int)
    requires f.Certified? && Authenticate(w, state, claimed, f, now).Ok?
    ensures var authorityKey := w.authority(f.certificate.centerDomain, f.certificate.keyVersion);
            && authorityKey.Some? && CertificateValid(w, f.certificate.name, f.certificate, authorityKey.value, now)
    ensures claimed.Some? ==> Covers(w.matcher, f.certificate.name, claimed.value)
    ensures ServerHelloBytes(w.serializer, state.serverHello).Ok? && ClientFinishBytes(f.finish).Ok?
    ensures var key := Certificate.PublicKey(f.certificate, f.algorithm);
            && key.Some? && Supported(w, f.algorithm)
            && SignatureValid(w, f.algorithm, SignedByClient(w, state, f.certificate, f.finish), f.signature, key.value)
    ensures Authenticate(w, state, claimed, f, now) == Ok(if claimed.Some? then claimed else Some(f.certificate.name))
  {
  }

  lemma AuthenticatesWhen(w: World, state: ServerState, claimed: Option<string>, f: Flight, now: int)
    requires f.Certified? && ServerHelloBytes(w.serializer, state.serverHello).Ok? && ClientFinishBytes(f.finish).Ok?
    requires Supported(w, f.algorithm)
    ensures var authorityKey := w.authority(f.certificate.centerDomain, f.certificate.keyVersion);
            var key := Certificate.PublicKey(f.certificate, f.algorithm);
            Authenticate(w, state, claimed, f, now).Ok?
            <==> && (claimed.Some? ==> Covers(w.matcher, f.certificate.name, claimed.value))
                 && authorityKey.Some?
                 && CertificateValid(w, f.certificate.name, f.certificate, authorityKey.value, now) && key.Some?
                 && SignatureValid(w, f.algorithm, SignedByClient(w, state, f.certificate, f.finish), f.signature,
                                   key.value)
  {
  }

  /** Whatever flight the network delivers: a server that authenticates a name has seen a valid certificate that covers
      it, and a signature of the holder of its key, or a verdict of liboqs, on this very session. */
  lemma ServerAcceptsOnlySigned(w: World, state: ServerState, claimed: Option<string>, f: Flight, now: int)
    requires f.Certified? && Authenticate(w, state, claimed, f, now).Ok?
    ensures SelfValid(w, f.certificate, now)
    ensures ServerHelloBytes(w.serializer, state.serverHello).Ok? && ClientFinishBytes(f.finish).Ok?
    ensures var name := Certificate.Normalize(f.algorithm);
            var key := Certificate.PublicKey(f.certificate, f.algorithm);
            var message := SignedByClient(w, state, f.certificate, f.finish);
            && w.setup.enabled(name) && key.Some?
            && (if name == "ml-dsa-87" then
                  exists seed: nat :: key.value == SignPublicKey(seed) && f.signature == Sign(seed, message)
                else w.verifyOther(name, message, f.signature, key.value))
    ensures var r := Authenticate(w, state, claimed, f, now).value;
            r == (if claimed.Some? then claimed else Some(f.certificate.name))
            && Covers(w.matcher, f.certificate.name, r.value)
  {
    AuthenticationChecks(w, state, claimed, f, now);
    SelfValidExactly(w, f.certificate, now);
    var key := Certificate.PublicKey(f.certificate, f.algorithm).value;
    if Certificate.Normalize(f.algorithm) == "ml-dsa-87" {
      var seed := key[0].term.seed;
      assert key == SignPublicKey(seed);
    }
  }

  /** A flight whose signature was made for some name, hellos, finish and certificate is accepted exactly in that
      session: by a server with those hellos, beside that finish and that certificate, and when the certificate is
      valid and holds the signer's key. */
  lemma FlightBoundToSession(
    w: World, state: ServerState, claimed: Option<string>, c: Cert, finish: ClientFinish, now: int,
    seed: nat, name: string, clientHello: Octets, serverHello: Octets, finishBytes: Octets, unsigned: Octets)
    requires ServerHelloBytes(w.serializer, state.serverHello).Ok? && ClientFinishBytes(finish).Ok?
    ensures var signature := Sign(seed, ClientMessage(name, clientHello, serverHello, finishBytes, unsigned));
            Authenticate(w, state, claimed, Certified(c, finish, ALGORITHM, signature), now).Ok?
            <==> && name == c.name && clientHello == ClientHelloBytes(state.clientHello)
                 && Ok(serverHello) == ServerHelloBytes(w.serializer, state.serverHello)
                 && Ok(finishBytes) == ClientFinishBytes(finish)
                 && unsigned == Certificate.UnsignedBytes(w.serializer, c)
                 && SelfValid(w, c, now) && Certificate.PublicKey(c, ALGORITHM) == Some(SignPublicKey(seed))
                 && (claimed.Some? ==> Covers(w.matcher, c.name, claimed.value))
  {
    var message := ClientMessage(name, clientHello, serverHello, finishBytes, unsigned);
    var expected := SignedByClient(w, state, c, finish);
    ClientMessageBinds(name, clientHello, serverHello, finishBytes, unsigned,
                       c.name, ClientHelloBytes(state.clientHello),
                       ServerHelloBytes(w.serializer, state.serverHello).value, ClientFinishBytes(finish).value,
                       Certificate.UnsignedBytes(w.serializer, c));
    DefaultAlgorithmNormal();
    var key := Certificate.PublicKey(c, ALGORITHM);
    if key.Some? {
      VerifySigned(seed, message, key.value, expected);
    }
    if w.authority(c.centerDomain, c.keyVersion).Some? {
      SelfValidExactly(w, c, now);
    }
    if Supported(w, ALGORITHM) {
      AuthenticatesWhen(w, state, claimed, Certified(c, finish, ALGORITHM, Sign(seed, message)), now);
    }
  }

  /** A signature of a server is never taken for one of a client. */
  lemma ServerSignatureNoFlight(
    w: World, state: ServerState, claimed: Option<string>, c: Cert, finish: ClientFinish, now: int,
    seed: nat, domain: string, hello: Octets, fields: Octets)
    ensures Authenticate(w, state, claimed,
                         Certified(c, finish, ALGORITHM, Sign(seed, ServerMessage(domain, hello, fields))), now).Err?
  {
    var f := Certified(c, finish, ALGORITHM, Sign(seed, ServerMessage(domain, hello, fields)));
    if Authenticate(w, state, claimed, f, now).Ok? {
      AuthenticationChecks(w, state, claimed, f, now);
      DefaultAlgorithmNormal();
      VerifySigned(seed, ServerMessage(domain, hello, fields), Certificate.PublicKey(c, ALGORITHM).value,
                   SignedByClient(w, state, c, finish));
      RolesSeparate(domain, hello, fields, c.name, ClientHelloBytes(state.clientHello),
                    ServerHelloBytes(w.serializer, state.serverHello).value, ClientFinishBytes(finish).value,
                    Certificate.UnsignedBytes(w.serializer, c));
    }
  }

  // ----- both ends, with the network in between -----

  /** Two hellos with the same octets are received alike. */
  lemma SameOctetsSameHello(s: Serializer, a: ServerHello, b: ServerHello)
    requires Certificate.Lawful(s) && Certificate.WellFormed(a.certificate) && Certificate.WellFormed(b.certificate)
    requires ServerHelloOk(a) && ServerHelloOk(b)
    requires ServerHelloBytes(s, a).Ok? && ServerHelloBytes(s, a) == ServerHelloBytes(s, b)
    ensures Received(a) == Received(b)
  {
    var octets := ServerHelloBytes(s, a).value;
    assert octets + [] == octets;
    ServerHelloRoundTrip(s, a, []);
    ServerHelloRoundTrip(s, b, []);
  }

  lemma SameFinish(a: ClientFinish, b: ClientFinish)
    requires ClientFinishBytes(a).Ok? && ClientFinishBytes(a) == ClientFinishBytes(b)
    ensures a == b
  {
    WholeBlob(a.ciphertext, []);
    WholeBlob(b.ciphertext, []);
  }

  /** The client's own message and the server's, once a flight with the client's signature has been accepted. */
  lemma AcceptedFlightTells(
    w: World, server: ServerState, seen: ServerHello, client: ClientState, done: Completion, claimed: Option<string>,
    c: Cert, f: Flight, seed: nat, now: int)
    requires ServerHelloBytes(w.serializer, seen).Ok? && ClientFinishBytes(done.finish).Ok?
    requires f.Certified? && f.algorithm == ALGORITHM && Authenticate(w, server, claimed, f, now).Ok?
    requires f.signature == Sign(seed, ClientMessage(
               c.name, ClientHelloBytes(client.hello), ServerHelloBytes(w.serializer, seen).value,
               ClientFinishBytes(done.finish).value, Certificate.UnsignedBytes(w.serializer, c)))
    ensures ClientHelloBytes(client.hello) == ClientHelloBytes(server.clientHello)
    ensures ServerHelloBytes(w.serializer, seen) == ServerHelloBytes(w.serializer, server.serverHello)
    ensures f.finish == done.finish && f.certificate.name == c.name
    ensures Certificate.UnsignedBytes(w.serializer, f.certificate) == Certificate.UnsignedBytes(w.serializer, c)
  {
    AuthenticationChecks(w, server, claimed, f, now);
    FlightBoundToSession(w, server, claimed, f.certificate, f.finish, now, seed, c.name,
                         ClientHelloBytes(client.hello), ServerHelloBytes(w.serializer, seen).value,
                         ClientFinishBytes(done.finish).value, Certificate.UnsignedBytes(w.serializer, c));
    SameFinish(f.finish, done.finish);
  }

  /** Between an honest server and an honest client the network may do what it likes: when the server accepts a flight
      with the client's signature, both hold one domain, one transcript, and one root exactly when their KDC keys are
      equal. */
  lemma SignedSessionAgrees(
    w: World, domain: string, id: Identity, r: Randomness, sent: ClientHello, server: ServerState,
    expected: string, client: ClientState, block: Octets, seen: ServerHello, authorityKey: Octets,
    clientKdc: Option<Octets>, done: Completion, c: Cert, seed: nat,
    claimed: Option<string>, f: Flight, serverKdc: Option<Octets>, established: Established, now1: int, now2: int)
    requires Portable(w, id.certificate) && ClientHelloOk(sent) && Nonces(r)
    requires BuildServer(w, domain, id, sent, r.serverNonce, r.serverScalar, r.kemSeed) == Ok(server)
    requires client == BuildClient(r.clientNonce, r.clientScalar) && StoreServerHello(w, block) == Ok(seen)
    requires CompleteClient(w, expected, client, seen, authorityKey, now1, clientKdc, r.coins) == Ok(done)
    requires ServerHelloBytes(w.serializer, seen).Ok? && ClientFinishBytes(done.finish).Ok?
    requires f.Certified? && f.algorithm == ALGORITHM && Authenticate(w, server, claimed, f, now2).Ok?
    requires f.signature == Sign(seed, ClientMessage(
               c.name, ClientHelloBytes(client.hello), ServerHelloBytes(w.serializer, seen).value,
               ClientFinishBytes(done.finish).value, Certificate.UnsignedBytes(w.serializer, c)))
    requires CompleteServer(w, domain, server, f.finish, serverKdc) == Ok(established)
    ensures expected == domain && client.hello == sent && seen == Received(server.serverHello)
    ensures established.transcript == done.established.transcript
    ensures established.root64 == done.established.root64 <==> clientKdc == serverKdc
    ensures CommitVerifies(established.root64, done.commit) <==> clientKdc == serverKdc
  {
    AcceptedFlightTells(w, server, seen, client, done, claimed, c, f, seed, now2);
    ClientHelloTravels(client.hello);
    ClientHelloTravels(sent);
    StoredIsOk(w, block);
    BuiltHelloOk(w, domain, id, sent, r.serverNonce, r.serverScalar, r.kemSeed);
    SameOctetsSameHello(w.serializer, seen, server.serverHello);
    StoredHasSource(w, block);
    DefaultAlgorithmNormal();
    BuiltParts(w, domain, id, sent, r.serverNonce, r.serverScalar, r.kemSeed, server);
    HonestHelloUnaltered(w, domain, id, sent, r.serverNonce, r.serverScalar, r.kemSeed, expected, client, block, seen,
                         authorityKey, now1, clientKdc, r.coins);
    ViewsMeet(w, domain, id, r, client, server, seen, authorityKey, clientKdc, done, serverKdc, established, now1);
  }

  /** What is stored carries its source. */
  lemma StoredHasSource(w: World, block: Octets)
    requires StoreServerHello(w, block).Ok?
    ensures Received(StoreServerHello(w, block).value) == StoreServerHello(w, block).value
  {
  }

  lemma ViewsMeet(
    w: World, domain: string, id: Identity, r: Randomness, client: ClientState, server: ServerState,
    seen: ServerHello, authorityKey: Octets, clientKdc: Option<Octets>, done: Completion,
    serverKdc: Option<Octets>, established: Established, now: int)
    requires Nonces(r) && Portable(w, id.certificate) && client == BuildClient(r.clientNonce, r.clientScalar)
    requires BuildServer(w, domain, id, client.hello, r.serverNonce, r.serverScalar, r.kemSeed) == Ok(server)
    requires seen == Received(server.serverHello)
    requires CompleteClient(w, domain, client, seen, authorityKey, now, clientKdc, r.coins) == Ok(done)
    requires CompleteServer(w, domain, server, done.finish, serverKdc) == Ok(established)
    ensures established.transcript == done.established.transcript
    ensures established.root64 == done.established.root64 <==> clientKdc == serverKdc
    ensures CommitVerifies(established.root64, done.commit) <==> clientKdc == serverKdc
  {
    BuiltParts(w, domain, id, client.hello, r.serverNonce, r.serverScalar, r.kemSeed, server);
    BuiltHelloOk(w, domain, id, client.hello, r.serverNonce, r.serverScalar, r.kemSeed);
    CompletedParts(w, domain, client, seen, authorityKey, now, clientKdc, r.coins, done);
    SecretsAgree(r.clientScalar, r.serverScalar, r.kemSeed, r.coins);
    ServerEstablishes(w, domain, server, done.finish, serverKdc);
    EstablishReceived(w, domain, client.hello, server.serverHello, done.finish, RunKem(r).1, RunCurve(r), clientKdc);
    KdcDecides(w, domain, client.hello, server.serverHello, done.finish, RunKem(r).1, RunCurve(r), clientKdc,
               serverKdc);
    CommitBindsRoot(done.established.root64, done.established.transcript, established.root64);
  }
}
