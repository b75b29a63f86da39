// Whole runs of the handshake between a configured server and a client that is
// anonymous or configured with a certificate of its own.
module HandshakeRuns {
  import opened Prelude
  import opened Symbols
  import opened Messages
  import opened Extensions
  import Certificate
  import opened CertificateNames
  import Configuration
  import opened Handshake
  import opened Agreement
  import Utf8

  /** The identities come from configurations, as every identity of the program does. */
  ghost predicate Carried(w: World, c: ClientSettings, id: Identity) {
    && Certificate.Lawful(w.serializer) && Configuration.Sized(w.setup)
    && Configuration.Configured(w.setup, id.certificate)
    && (c.identity.Some? ==> Configuration.Configured(w.setup, c.identity.value.certificate))
  }

  /** The configuration gave every key as octets, not as text. */
  predicate Readable(c: Cert) {
    c.sourceData.Some? && Certificate.OctetKeys(Certificate.AlgsOf(c.sourceData.value))
  }

  lemma ReadableIsPortable(w: World, c: Cert)
    requires Certificate.Lawful(w.serializer) && Configuration.Sized(w.setup) && Configuration.Configured(w.setup, c)
    ensures Readable(c) <==> Portable(w, c)
    ensures Readable(c) <==> Certificate.FromBytes(w.serializer, Certificate.ToBytes(w.serializer, c)).Ok?
  {
    Configuration.ConfiguredReadableExactly(w.setup, w.serializer, c);
  }

  // ----- the server's certificate on the wire -----

  /** The client can store the server's hello exactly when the server's certificate is readable, and then it is the
      hello that was sent. */
  lemma StoresExactly(w: World, state: ServerState)
    requires ServerHelloOk(state.serverHello) && ServerFlight(w, state).Ok?
    requires Certificate.Lawful(w.serializer) && Configuration.Sized(w.setup)
    requires Configuration.Configured(w.setup, state.serverHello.certificate)
    ensures var stored := StoreServerHello(w, ServerFlight(w, state).value);
            && (stored.Ok? <==> Readable(state.serverHello.certificate))
            && (stored.Ok? ==> stored == Ok(Received(state.serverHello)))
  {
    var m := state.serverHello;
    ReadableIsPortable(w, m.certificate);
    if Readable(m.certificate) {
      ServerHelloTravels(w, state);
    } else {
      ListRoundTrip([Extension(SERVER_HELLO, ServerHelloBytes(w.serializer, m).value)]);
      UnreadableHello(w.serializer, m);
    }
  }

  /** With what an honest server sent, the client completes exactly when the server's certificate is readable, valid
      for the domain the client expects and the server's own, and that domain is the one the server signed for. */
  lemma ClientCompletesExactly(
    w: World, domain: string, id: Identity, state: ClientState, nonce: Octets, scalar: nat, seed: nat,
    effective: string, authorityKey: Octets, now: int, kdcKey: Option<Octets>, coins: nat)
    requires Certificate.Lawful(w.serializer) && Configuration.Sized(w.setup)
    requires Configuration.Configured(w.setup, id.certificate)
    requires ClientHelloOk(state.hello) && |nonce| == NONCE_LEN
    requires BuildServer(w, domain, id, state.hello, nonce, scalar, seed).Ok?
    requires ServerFlight(w, BuildServer(w, domain, id, state.hello, nonce, scalar, seed).value).Ok?
    ensures var server := BuildServer(w, domain, id, state.hello, nonce, scalar, seed).value;
            var stored := StoreServerHello(w, ServerFlight(w, server).value);
            stored.Ok? && CompleteClient(w, effective, state, stored.value, authorityKey, now, kdcKey, coins).Ok?
            <==> && Readable(id.certificate) && CertificateValid(w, effective, id.certificate, authorityKey, now)
                 && Matching(id) && effective == domain
  {
    var server := BuildServer(w, domain, id, state.hello, nonce, scalar, seed).value;
    BuiltHelloOk(w, domain, id, state.hello, nonce, scalar, seed);
    StoresExactly(w, server);
    ReadableIsPortable(w, id.certificate);
    if Readable(id.certificate) {
      AcceptsHelloExactly(w, domain, id, state, nonce, scalar, seed, effective, authorityKey, now, kdcKey, coins);
    }
  }

  // ----- runs -----

  /** The server has answered and its flight can be sent. */
  predicate Offered(w: World, c: ClientSettings, domain: string, id: Identity, r: Randomness)
    requires |r.clientNonce| == NONCE_LEN
  {
    ServerAnswers(w, c, domain, id, r).Ok? && ServerFlight(w, ServerAnswers(w, c, domain, id, r).value.state).Ok?
  }

  function StoredHello(w: World, c: ClientSettings, domain: string, id: Identity, r: Randomness): Result<ServerHello>
    requires |r.clientNonce| == NONCE_LEN && Offered(w, c, domain, id, r)
  {
    StoreServerHello(w, ServerFlight(w, ServerAnswers(w, c, domain, id, r).value.state).value)
  }

  lemma StoredExactly(w: World, c: ClientSettings, domain: string, id: Identity, r: Randomness)
    requires Carried(w, c, id) && Nonces(r) && Offered(w, c, domain, id, r)
    ensures StoredHello(w, c, domain, id, r).Ok? <==> Readable(id.certificate)
    ensures StoredHello(w, c, domain, id, r).Ok? ==> Portable(w, id.certificate)
  {
    OfferIs(w, c, domain, id, r);
    BuiltHelloOk(w, domain, id, BuildClient(r.clientNonce, r.clientScalar).hello, r.serverNonce, r.serverScalar,
                 r.kemSeed);
    StoresExactly(w, ServerAnswers(w, c, domain, id, r).value.state);
    ReadableIsPortable(w, id.certificate);
  }

  /** The server takes the client's entry only if the client's certificate, if any, is readable. */
  lemma EntryNeedsReadable(w: World, c: ClientSettings, client: ClientState, hello: ServerHello, done: Completion)
    requires Certificate.Lawful(w.serializer) && Configuration.Sized(w.setup) && c.identity.Some?
    requires Configuration.Configured(w.setup, c.identity.value.certificate)
    requires ClientEntry(w, c, client, hello, done).Ok?
    requires ReadFlight(w.serializer, ClientEntry(w, c, client, hello, done).value).Ok?
    ensures Readable(c.identity.value.certificate) && Portable(w, c.identity.value.certificate)
  {
    ReadableIsPortable(w, c.identity.value.certificate);
  }

  /** What both halves of a run come to, once the client has finished. */
  lemma RunEnds(
    w: World, c: ClientSettings, domain: string, id: Identity, serverKdc: Option<Octets>, r: Randomness, now: int,
    client: ClientState, server: ServerState, done: Completion, entry: Entry)
    requires Carried(w, c, id) && Answered(w, domain, id, r, client, server)
    requires ClientFinished(w, c, client, Received(server.serverHello), now, r.coins) == Ok((done, entry))
    ensures var end := HandleCertificate(w, domain, Offer(server, Claimed(c)), serverKdc, entry, now);
            && (end.Ok?
                <==> || c.identity.None?
                     || (Readable(c.identity.value.certificate) && ClientAcceptable(w, c, c.identity.value, now)))
            && (end.Ok? ==>
                  && end.value.0.transcript == done.established.transcript
                  && (end.value.0.root64 == done.established.root64 <==> c.kdcKey == serverKdc)
                  && (CommitVerifies(end.value.0.root64, done.commit) <==> c.kdcKey == serverKdc)
                  && end.value.1 == (if c.identity.None? then None else LocalName(c)))
  {
    var hello := Received(server.serverHello);
    var effective, authorityKey := FinishedParts(w, c, client, hello, now, r.coins, done, entry);
    if c.identity.Some? && HandleCertificate(w, domain, Offer(server, Claimed(c)), serverKdc, entry, now).Ok? {
      EntryNeedsReadable(w, c, client, hello, done);
    }
    if c.identity.Some? {
      ReadableIsPortable(w, c.identity.value.certificate);
    }
    if c.identity.None? || Readable(c.identity.value.certificate) {
      ServerHalf(w, c, domain, id, serverKdc, r, now, client, server, done, entry);
    }
  }

  /** Every run that completes, anonymous or certified: the client's domain is the server's, both hold one transcript,
      they hold one root and accept each other's commit exactly when their KDC keys are equal, and the server
      authenticates the name the client goes by, or nobody. */
  lemma HandshakeAgreement(
    w: World, c: ClientSettings, domain: string, id: Identity, serverKdc: Option<Octets>, r: Randomness, now: int)
    requires Carried(w, c, id) && Nonces(r) && RunHandshake(w, c, domain, id, serverKdc, r, now).Ok?
    ensures var o := RunHandshake(w, c, domain, id, serverKdc, r, now).value;
            && EffectiveDomain(c, o.hello) == domain && o.hello.certificate.name == id.certificate.name
            && o.server.transcript == o.done.established.transcript
            && (o.server.root64 == o.done.established.root64 <==> c.kdcKey == serverKdc)
            && (CommitVerifies(o.server.root64, o.done.commit) <==> c.kdcKey == serverKdc)
            && o.authenticated == (if c.identity.None? then None else LocalName(c))
  {
    StoredExactly(w, c, domain, id, r);
    RunBegins(w, c, domain, id, r);
    var client := BuildClient(r.clientNonce, r.clientScalar);
    var server := ServerAnswers(w, c, domain, id, r).value.state;
    var (done, entry) := ClientFinished(w, c, client, Received(server.serverHello), now, r.coins).value;
    ClientHalf(w, c, domain, id, r, now, client, server, done, entry);
    RunEnds(w, c, domain, id, serverKdc, r, now, client, server, done, entry);
  }

  /** A run whose client finishes fails at the server only over the client's certificate. */
  lemma ServerCompletesExactly(
    w: World, c: ClientSettings, domain: string, id: Identity, serverKdc: Option<Octets>, r: Randomness, now: int)
    requires Carried(w, c, id) && Nonces(r) && Offered(w, c, domain, id, r)
    requires var hello := StoredHello(w, c, domain, id, r);
             && hello.Ok?
             && ClientFinished(w, c, BuildClient(r.clientNonce, r.clientScalar), hello.value, now, r.coins).Ok?
    ensures RunHandshake(w, c, domain, id, serverKdc, r, now).Ok?
            <==> || c.identity.None?
                 || (Readable(c.identity.value.certificate) && ClientAcceptable(w, c, c.identity.value, now))
  {
    StoredExactly(w, c, domain, id, r);
    RunBegins(w, c, domain, id, r);
    var client := BuildClient(r.clientNonce, r.clientScalar);
    var server := ServerAnswers(w, c, domain, id, r).value.state;
    var (done, entry) := ClientFinished(w, c, client, Received(server.serverHello), now, r.coins).value;
    RunEnds(w, c, domain, id, serverKdc, r, now, client, server, done, entry);
  }

  /** Once the server's flight is out, the client finishes exactly when it can read and accepts the server's
      certificate, expects the signed domain, and can sign with its own. */
  lemma ClientFinishesExactly(w: World, c: ClientSettings, domain: string, id: Identity, r: Randomness, now: int)
    requires Carried(w, c, id) && Nonces(r) && Offered(w, c, domain, id, r)
    ensures var stored := StoredHello(w, c, domain, id, r);
            && stored.Ok?
            && ClientFinished(w, c, BuildClient(r.clientNonce, r.clientScalar), stored.value, now, r.coins).Ok?
            <==> && Readable(id.certificate) && ServerAcceptable(w, domain, id, now)
                 && (if c.acceptAny then id.certificate.name else c.serverDomain) == domain
                 && (c.identity.None? || ALGORITHM in c.identity.value.privateKeys)
  {
    StoredExactly(w, c, domain, id, r);
    if Readable(id.certificate) {
      RunBegins(w, c, domain, id, r);
      FinishesExactly(w, c, domain, id, r, now, BuildClient(r.clientNonce, r.clientScalar),
                      ServerAnswers(w, c, domain, id, r).value.state);
    }
  }

  // ----- when the server's flight can be sent -----

  /** The octets of a server hello that carries the certificate: nonce, point, and four blobs. */
  function HelloLength(w: World, c: Cert): nat {
    64 + (2 + 1568) + (2 + |Text(ALGORITHM)|) + (2 + |Certificate.ToBytes(w.serializer, c)|) + (2 + 4627)
  }

  /** The server can speak for the domain. */
  predicate CanAnswer(w: World, domain: string, id: Identity) {
    && Covers(w.matcher, id.certificate.name, domain) && Supported(w, ALGORITHM)
    && ALGORITHM in id.privateKeys && Certificate.PublicKey(id.certificate, ALGORITHM).Some?
  }

  lemma AlgorithmFits()
    ensures |Text(ALGORITHM)| <= 36
  {
    Utf8.EncodedLength(ALGORITHM);
    assert |ALGORITHM| == 9;
  }

  lemma UnsignedLength(w: World, id: Identity, nonce: Octets, scalar: nat, seed: nat)
    requires |nonce| == NONCE_LEN
    ensures var u := ServerHelloUnsigned(w.serializer, UnsignedHello(id, nonce, scalar, seed));
            && (u.Ok? <==> |Certificate.ToBytes(w.serializer, id.certificate)| <= MAX_BLOB)
            && (u.Ok? ==> |u.value| + 4629 == HelloLength(w, id.certificate))
  {
    AlgorithmFits();
  }

  lemma BuildsExactly(w: World, domain: string, id: Identity, hello: ClientHello, nonce: Octets, scalar: nat, seed: nat)
    requires |nonce| == NONCE_LEN
    ensures BuildServer(w, domain, id, hello, nonce, scalar, seed).Ok?
            <==> CanAnswer(w, domain, id) && |Certificate.ToBytes(w.serializer, id.certificate)| <= MAX_BLOB
  {
    UnsignedLength(w, id, nonce, scalar, seed);
  }

  /** The signature is not among the signed octets, so the hello grows by one blob. */
  lemma SignedLength(w: World, id: Identity, nonce: Octets, scalar: nat, seed: nat, message: Octets)
    requires |nonce| == NONCE_LEN && ALGORITHM in id.privateKeys
    requires ServerHelloUnsigned(w.serializer, UnsignedHello(id, nonce, scalar, seed)).Ok?
    ensures var m := UnsignedHello(id, nonce, scalar, seed).(signature := Sign(id.privateKeys[ALGORITHM], message));
            && ServerHelloBytes(w.serializer, m).Ok?
            && |ServerHelloBytes(w.serializer, m).value| == HelloLength(w, id.certificate)
  {
    UnsignedLength(w, id, nonce, scalar, seed);
    var m := UnsignedHello(id, nonce, scalar, seed);
    var signed := m.(signature := Sign(id.privateKeys[ALGORITHM], message));
    assert ServerHelloUnsigned(w.serializer, signed) == ServerHelloUnsigned(w.serializer, m);
  }

  lemma FlightExactly(w: World, state: ServerState)
    requires ServerHelloBytes(w.serializer, state.serverHello).Ok?
    ensures ServerFlight(w, state).Ok? <==> |ServerHelloBytes(w.serializer, state.serverHello).value| <= 0xFFFF
  {
    var payload := ServerHelloBytes(w.serializer, state.serverHello).value;
    var list := [Extension(SERVER_HELLO, payload)];
    assert ServerFlight(w, state) == EncodeList(list);
    assert list[1..] == [];
    assert EncodeList(list[1..]) == Ok([]);
    assert Fits(list[0]) <==> |payload| <= 0xFFFF;
  }

  lemma AnswersExactly(w: World, c: ClientSettings, domain: string, id: Identity, r: Randomness)
    requires Nonces(r)
    ensures ServerAnswers(w, c, domain, id, r).Ok?
            <==> BuildServer(w, domain, id, BuildClient(r.clientNonce, r.clientScalar).hello,
                             r.serverNonce, r.serverScalar, r.kemSeed).Ok?
  {
    var hello := BuildClient(r.clientNonce, r.clientScalar).hello;
    ClientExtensionsFound(c, hello);
    ClientHelloTravels(hello);
    ClaimTravels(c);
  }

  /** The server's flight goes out exactly when it can speak for the domain and the hello fits one extension. */
  lemma OfferedExactly(w: World, c: ClientSettings, domain: string, id: Identity, r: Randomness)
    requires Nonces(r)
    ensures Offered(w, c, domain, id, r) <==> CanAnswer(w, domain, id) && HelloLength(w, id.certificate) <= 0xFFFF
  {
    var hello := BuildClient(r.clientNonce, r.clientScalar).hello;
    AnswersExactly(w, c, domain, id, r);
    BuildsExactly(w, domain, id, hello, r.serverNonce, r.serverScalar, r.kemSeed);
    if ServerAnswers(w, c, domain, id, r).Ok? {
      OfferIs(w, c, domain, id, r);
      var unsigned := UnsignedHello(id, r.serverNonce, r.serverScalar, r.kemSeed);
      var octets := ServerHelloUnsigned(w.serializer, unsigned).value;
      SignedLength(w, id, r.serverNonce, r.serverScalar, r.kemSeed,
                   ServerMessage(domain, ClientHelloBytes(hello), octets));
      FlightExactly(w, ServerAnswers(w, c, domain, id, r).value.state);
    }
  }

  /** A run completes exactly when the server's hello fits one extension, the client can read and accepts the server's
      certificate, it expects the domain the server signed for, and it is anonymous or holds a readable and acceptable
      certificate of its own. */
  lemma RunCompletesExactly(
    w: World, c: ClientSettings, domain: string, id: Identity, serverKdc: Option<Octets>, r: Randomness, now: int)
    requires Carried(w, c, id) && Nonces(r)
    ensures RunHandshake(w, c, domain, id, serverKdc, r, now).Ok?
            <==> && HelloLength(w, id.certificate) <= 0xFFFF
                 && Readable(id.certificate) && ServerAcceptable(w, domain, id, now)
                 && (if c.acceptAny then id.certificate.name else c.serverDomain) == domain
                 && (|| c.identity.None?
                     || (Readable(c.identity.value.certificate) && ClientAcceptable(w, c, c.identity.value, now)))
  {
    OfferedExactly(w, c, domain, id, r);
    if Offered(w, c, domain, id, r) {
      ClientFinishesExactly(w, c, domain, id, r, now);
      var stored := StoredHello(w, c, domain, id, r);
      if stored.Ok?
         && ClientFinished(w, c, BuildClient(r.clientNonce, r.clientScalar), stored.value, now, r.coins).Ok?
      {
        ServerCompletesExactly(w, c, domain, id, serverKdc, r, now);
      }
    }
  }
}
