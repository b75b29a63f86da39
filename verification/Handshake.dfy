// The certified hybrid handshake between a client and a server, over the wire.
//
// Randomness is a parameter of each step: nonces, X25519 scalars, the ML-KEM
// seed and the encapsulation coins.
module Handshake {
  import opened Prelude
  import opened Symbols
  import opened Messages
  import opened Extensions
  import Certificate
  import Configuration
  import Utf8
  import opened CertificateNames

  const ALGORITHM := "ml-dsa-87"

  /** What both programs share: the serializer, the name matcher, the embedded authority keys, how a configuration is
      read and what liboqs offers, and its verdicts for algorithms other than ML-DSA-87. */
  datatype World = World(
    serializer: Serializer,
    matcher: Matcher,
    authority: (string, int) -> Option<Octets>,
    setup: Configuration.Setup,
    verifyOther: (string, Octets, Octets, Octets) -> bool)

  predicate Supported(w: World, algorithm: string) {
    w.setup.enabled(Certificate.Normalize(algorithm))
  }

  /** ML-DSA-87 is symbolic; of other algorithms only the verdict is known. */
  predicate SignatureValid(w: World, algorithm: string, message: Octets, signature: Octets, key: Octets) {
    if Certificate.Normalize(algorithm) == ALGORITHM then Verify(message, signature, key)
    else w.verifyOther(Certificate.Normalize(algorithm), message, signature, key)
  }

  predicate CertificateValid(w: World, expected: string, c: Cert, authorityKey: Octets, now: int) {
    && Covers(w.matcher, c.name, expected)
    && now <= c.expiresAt.instant
    && Supported(w, ALGORITHM)
    && Verify(Certificate.UnsignedBytes(w.serializer, c), c.signature, authorityKey)
  }

  // ----- what is signed -----

  const SERVER_CONTEXT := "gn:pq:s1-sign:v2"
  const CLIENT_CONTEXT := "gn:pq:c1-sign:v1"

  function ServerMessage(domain: string, clientHello: Octets, unsignedHello: Octets): Octets {
    Text(SERVER_CONTEXT) + DomainBinding(domain) + Sha3_512(clientHello) + Sha3_512(unsignedHello)
  }

  function ClientMessage(
    name: string, clientHello: Octets, serverHello: Octets, finish: Octets, unsignedCertificate: Octets): Octets
  {
    Text(CLIENT_CONTEXT) + DomainBinding(name)
    + (Sha3_512(clientHello) + Sha3_512(serverHello) + Sha3_512(finish) + Sha3_512(unsignedCertificate))
  }

  lemma Sha3Injective(a: Octets, b: Octets)
    requires Sha3_512(a) == Sha3_512(b)
    ensures a == b
  {
    ExpandInjective(Sha3(a), Sha3(b), 64);
  }

  lemma SignedParts(context: Octets, d1: string, rest1: Octets, d2: string, rest2: Octets)
    requires context + DomainBinding(d1) + rest1 == context + DomainBinding(d2) + rest2
    ensures d1 == d2 && rest1 == rest2
  {
    var x, y := context + DomainBinding(d1) + rest1, context + DomainBinding(d2) + rest2;
    var n := |context|;
    assert x[n..n + 64] == DomainBinding(d1) && y[n..n + 64] == DomainBinding(d2);
    assert x[n + 64..] == rest1 && y[n + 64..] == rest2;
    DomainBindingInjective(d1, d2);
  }

  lemma TwoFields(a1: Octets, a2: Octets, b1: Octets, b2: Octets)
    requires |a1| == |b1| && a1 + a2 == b1 + b2
    ensures a1 == b1 && a2 == b2
  {
    assert (a1 + a2)[..|a1|] == a1 && (b1 + b2)[..|a1|] == b1;
    assert (a1 + a2)[|a1|..] == a2 && (b1 + b2)[|a1|..] == b2;
  }

  /** What a server signs is determined by, and determines, the domain and both hellos. */
  lemma ServerMessageBinds(
    domain1: string, hello1: Octets, unsigned1: Octets, domain2: string, hello2: Octets, unsigned2: Octets)
    ensures ServerMessage(domain1, hello1, unsigned1) == ServerMessage(domain2, hello2, unsigned2)
            <==> domain1 == domain2 && hello1 == hello2 && unsigned1 == unsigned2
  {
    if ServerMessage(domain1, hello1, unsigned1) == ServerMessage(domain2, hello2, unsigned2) {
      var context := Text(SERVER_CONTEXT);
      var a1, b1 := Sha3_512(hello1), Sha3_512(unsigned1);
      var a2, b2 := Sha3_512(hello2), Sha3_512(unsigned2);
      Associates(context + DomainBinding(domain1), a1, b1);
      Associates(context + DomainBinding(domain2), a2, b2);
      SignedParts(context, domain1, a1 + b1, domain2, a2 + b2);
      TwoFields(a1, b1, a2, b2);
      Sha3Injective(hello1, hello2);
      Sha3Injective(unsigned1, unsigned2);
    }
  }

  /** What a client signs is determined by, and determines, its name, both hellos, the finish and the certificate. */
  lemma ClientMessageBinds(
    name1: string, client1: Octets, server1: Octets, finish1: Octets, unsigned1: Octets,
    name2: string, client2: Octets, server2: Octets, finish2: Octets, unsigned2: Octets)
    ensures ClientMessage(name1, client1, server1, finish1, unsigned1)
            == ClientMessage(name2, client2, server2, finish2, unsigned2)
            <==> && name1 == name2 && client1 == client2 && server1 == server2 && finish1 == finish2
                 && unsigned1 == unsigned2
  {
    if ClientMessage(name1, client1, server1, finish1, unsigned1)
       == ClientMessage(name2, client2, server2, finish2, unsigned2)
    {
      var a1, b1, c1, d1 := Sha3_512(client1), Sha3_512(server1), Sha3_512(finish1), Sha3_512(unsigned1);
      var a2, b2, c2, d2 := Sha3_512(client2), Sha3_512(server2), Sha3_512(finish2), Sha3_512(unsigned2);
      SignedParts(Text(CLIENT_CONTEXT), name1, a1 + b1 + c1 + d1, name2, a2 + b2 + c2 + d2);
      FourFields(a1, b1, c1, d1, a2, b2, c2, d2);
      Sha3Injective(client1, client2);
      Sha3Injective(server1, server2);
      Sha3Injective(finish1, finish2);
      Sha3Injective(unsigned1, unsigned2);
    }
  }

  /** Nothing a server signs is what a client signs. */
  lemma RolesSeparate(
    domain: string, hello: Octets, unsigned: Octets,
    name: string, client: Octets, server: Octets, finish: Octets, certificate: Octets)
    ensures ServerMessage(domain, hello, unsigned) != ClientMessage(name, client, server, finish, certificate)
  {
    Utf8.EncodedLength(SERVER_CONTEXT);
    assert |SERVER_CONTEXT| == 16;
  }

  // ----- states -----

  datatype Identity = Identity(certificate: Cert, privateKeys: map<string, nat>)

  /** The private key matches the public key in the certificate. */
  predicate Matching(id: Identity) {
    ALGORITHM in id.privateKeys
    && Certificate.PublicKey(id.certificate, ALGORITHM) == Some(SignPublicKey(id.privateKeys[ALGORITHM]))
  }

  datatype ClientState = ClientState(hello: ClientHello, scalar: nat)
  datatype ServerState = ServerState(clientHello: ClientHello, serverHello: ServerHello, kemSeed: nat,
                                     curveSecret: Octets)
  datatype Established = Established(transcript: Octets, root64: Octets)
  datatype Completion = Completion(established: Established, finish: ClientFinish, commit: Commit)

  function BuildClient(nonce: Octets, scalar: nat): (c: ClientState)
    requires |nonce| == NONCE_LEN
    ensures ClientHelloOk(c.hello)
  {
    ClientState(ClientHello(nonce, XPublic(scalar)), scalar)
  }

  /** The hello before it is signed. */
  function UnsignedHello(id: Identity, nonce: Octets, scalar: nat, seed: nat): ServerHello {
    ServerHello(nonce, XPublic(scalar), KemPublicKey(seed), ALGORITHM, id.certificate, [])
  }

  function BuildServer(
    w: World, domain: string, id: Identity, hello: ClientHello, nonce: Octets, scalar: nat,
    seed: nat): Result<ServerState>
  {
    if !Covers(w.matcher, id.certificate.name, domain) then Err("certificate does not cover local server domain")
    else if !Supported(w, ALGORITHM) then Err("MechanismNotSupportedError")
    else if ALGORITHM !in id.privateKeys then Err("no private key")
    else if Certificate.PublicKey(id.certificate, ALGORITHM).None? then Err("certificate does not contain algorithm")
    else
      var unsigned := UnsignedHello(id, nonce, scalar, seed);
      var octets :- ServerHelloUnsigned(w.serializer, unsigned);
      var signature := Sign(id.privateKeys[ALGORITHM], ServerMessage(domain, ClientHelloBytes(hello), octets));
      Ok(ServerState(hello, unsigned.(signature := signature), seed, XExchange(scalar, hello.point)))
  }

  /** A fixed-size buffer filled from a shorter value; a longer one does not fit. */
  function Buffered(value: Octets, length: nat): (r: Result<Octets>)
    ensures r.Ok? <==> |value| <= length
    ensures r.Ok? ==> |r.value| == length && value <= r.value
    ensures r.Ok? ==> forall i :: |value| <= i < length ==> r.value[i] == Raw(0)
    ensures |value| == length ==> r == Ok(value)
  {
    if |value| > length then Err("byte string too long") else
      assert |value| == length ==> value + Zeros(0) == value;
      Ok(value + Zeros(length - |value|))
  }

  /** Transcript and root, as both ends compute them from their own view. */
  function Establish(
    w: World, domain: string, clientHello: ClientHello, serverHello: ServerHello, finish: ClientFinish,
    kemSecret: Octets, curveSecret: Octets, kdcKey: Option<Octets>): Result<Established>
  {
    var helloBytes :- ServerHelloBytes(w.serializer, serverHello);
    var finishBytes :- ClientFinishBytes(finish);
    var transcript :- TranscriptHash(domain, [ClientHelloBytes(clientHello), helloBytes, finishBytes]);
    Ok(Established(transcript, SessionRoot(RootInputs(
      domain, clientHello.nonce, serverHello.nonce, kemSecret, curveSecret, transcript, kdcKey))))
  }

  function CompleteClient(
    w: World, domain: string, state: ClientState, hello: ServerHello, authorityKey: Octets, now: int,
    kdcKey: Option<Octets>, coins: nat): (r: Result<Completion>)
    ensures r.Ok? ==> |r.value.finish.ciphertext| == 1568
  {
    if !CertificateValid(w, domain, hello.certificate, authorityKey, now) then Err("certificate")
    else
      var unsigned :- ServerHelloUnsigned(w.serializer, hello);
      var key := Certificate.PublicKey(hello.certificate, hello.algorithm);
      if key.None? then Err("certificate does not contain algorithm")
      else if !Supported(w, hello.algorithm) then Err("MechanismNotSupportedError")
      else if !SignatureValid(w, hello.algorithm, ServerMessage(domain, ClientHelloBytes(state.hello), unsigned),
                              hello.signature, key.value)
      then Err("Invalid server ML-DSA signature in server hello")
      else
        var kemKey :- Buffered(hello.kemKey, 1568);
        var (ciphertext, kemSecret) := Encapsulate(kemKey, coins);
        var finish := ClientFinish(ciphertext);
        var established :- Establish(w, domain, state.hello, hello, finish, kemSecret,
                                     XExchange(state.scalar, hello.point), kdcKey);
        Ok(Completion(established, finish, CommitFor(established.root64, established.transcript)))
  }

  function CompleteServer(
    w: World, domain: string, state: ServerState, finish: ClientFinish, kdcKey: Option<Octets>): Result<Established>
  {
    var ciphertext :- Buffered(finish.ciphertext, 1568);
    Establish(w, domain, state.clientHello, state.serverHello, finish, Decapsulate(state.kemSeed, ciphertext),
              state.curveSecret, kdcKey)
  }

  // ----- the settings and the messages of a run -----

  datatype ClientSettings = ClientSettings(
    serverDomain: string, kdcKey: Option<Octets>, acceptAny: bool, clientDomain: Option<string>,
    identity: Option<Identity>)

  /** A client domain is kept only beside a certificate that covers it; without one it is the certificate's name. */
  function BuildClientSettings(
    w: World, serverDomain: string, kdcKey: Option<Octets>, acceptAny: bool,
    clientDomain: Option<string>, identity: Option<Identity>): (r: Result<ClientSettings>)
    ensures r.Ok? ==> (r.value.clientDomain.None? <==> identity.None?)
  {
    if identity.None? then Ok(ClientSettings(serverDomain, kdcKey, acceptAny, None, None))
    else
      var name := identity.value.certificate.name;
      if clientDomain.None? then Ok(ClientSettings(serverDomain, kdcKey, acceptAny, Some(name), identity))
      else if !Covers(w.matcher, name, clientDomain.value) then Err("client domain is not covered")
      else Ok(ClientSettings(serverDomain, kdcKey, acceptAny, clientDomain, identity))
  }

  /** Settings are refused exactly for a certificate that does not cover the client domain given beside it; a client
      with a certificate goes by that domain, or by the certificate's name. */
  lemma SettingsExactly(
    w: World, serverDomain: string, kdcKey: Option<Octets>, acceptAny: bool,
    clientDomain: Option<string>, identity: Option<Identity>)
    ensures var r := BuildClientSettings(w, serverDomain, kdcKey, acceptAny, clientDomain, identity);
            && (r.Err?
                <==> && identity.Some? && clientDomain.Some?
                     && !Covers(w.matcher, identity.value.certificate.name, clientDomain.value))
            && (r.Ok? ==>
                  && r.value.serverDomain == serverDomain && r.value.kdcKey == kdcKey && r.value.acceptAny == acceptAny
                  && r.value.identity == identity
                  && (identity.None? ==> r.value.clientDomain == None)
                  && (identity.Some? && clientDomain.Some? ==> r.value.clientDomain == clientDomain)
                  && (identity.Some? && clientDomain.None? ==>
                        r.value.clientDomain == Some(identity.value.certificate.name)))
  {
  }

  /** The domain extension is sent for a non-empty domain only. */
  function DomainPayload(c: ClientSettings): Option<Octets> {
    if c.clientDomain.Some? && c.clientDomain.value != "" then Some(Text(c.clientDomain.value)) else None
  }

  /** What the client adds to its TLS hello. */
  function ClientExtensions(c: ClientSettings, hello: ClientHello): seq<Extension> {
    [Extension(CLIENT_HELLO, ClientHelloBytes(hello))]
    + (if DomainPayload(c).Some? then [Extension(CLIENT_DOMAIN, DomainPayload(c).value)] else [])
  }

  datatype Offer = Offer(state: ServerState, claimed: Option<string>)

  function ReceiveClientHello(
    w: World, domain: string, id: Identity, extensions: seq<Extension>, nonce: Octets, scalar: nat,
    seed: nat): Result<Offer>
  {
    var helloPayload, domainPayload := Find(extensions, CLIENT_HELLO), Find(extensions, CLIENT_DOMAIN);
    var text := if domainPayload.None? then Some("") else AsText(domainPayload.value);
    if helloPayload.None? then Err("GN PQ client hello extension missing")
    else if text.None? then Err("Invalid GN PQ client domain")
    else
      var hello :- ParseClientHello(helloPayload.value);
      var state :- BuildServer(w, domain, id, hello, nonce, scalar, seed);
      Ok(Offer(state, if text.value == "" then None else text))
  }

  lemma BuiltState(w: World, domain: string, id: Identity, hello: ClientHello, nonce: Octets, scalar: nat, seed: nat)
    requires BuildServer(w, domain, id, hello, nonce, scalar, seed).Ok?
    ensures var state := BuildServer(w, domain, id, hello, nonce, scalar, seed).value;
            && Covers(w.matcher, id.certificate.name, domain) && state.clientHello == hello
            && state.serverHello.nonce == nonce && state.serverHello.point == XPublic(scalar)
            && state.serverHello.kemKey == KemPublicKey(seed) && state.kemSeed == seed
            && state.curveSecret == XExchange(scalar, hello.point)
  {
  }

  lemma OfferParts(
    w: World, domain: string, id: Identity, extensions: seq<Extension>, nonce: Octets, scalar: nat, seed: nat)
    requires ReceiveClientHello(w, domain, id, extensions, nonce, scalar, seed).Ok?
    ensures var offer := ReceiveClientHello(w, domain, id, extensions, nonce, scalar, seed).value;
            var hello, claim := Find(extensions, CLIENT_HELLO), Find(extensions, CLIENT_DOMAIN);
            && hello.Some? && ParseClientHello(hello.value).Ok?
            && BuildServer(w, domain, id, ParseClientHello(hello.value).value, nonce, scalar, seed) == Ok(offer.state)
            && (claim.Some? ==> AsText(claim.value).Some?)
            && offer.claimed == (if claim.None? || AsText(claim.value) == Some("") then None else AsText(claim.value))
  {
  }

  lemma ParsedHello(data: Octets)
    requires ParseClientHello(data).Ok?
    ensures |data| == 64 && data == ClientHelloBytes(ParseClientHello(data).value)
  {
    assert data == data[..NONCE_LEN] + data[NONCE_LEN..];
  }

  /** A server answers only a hello of 64 octets, beside a domain that is text or none, and only for a domain its own
      certificate covers; it takes the claim as it stands. */
  lemma AnswersOnly(
    w: World, domain: string, id: Identity, extensions: seq<Extension>, nonce: Octets, scalar: nat, seed: nat)
    requires ReceiveClientHello(w, domain, id, extensions, nonce, scalar, seed).Ok?
    ensures var offer := ReceiveClientHello(w, domain, id, extensions, nonce, scalar, seed).value;
            var hello, claim := Find(extensions, CLIENT_HELLO), Find(extensions, CLIENT_DOMAIN);
            && hello.Some? && |hello.value| == 64 && hello.value == ClientHelloBytes(offer.state.clientHello)
            && (offer.claimed.Some? ==> offer.claimed.value != "" && claim == Some(Text(offer.claimed.value)))
            && (offer.claimed.None? ==> claim.None? || claim == Some(Text("")))
            && Covers(w.matcher, id.certificate.name, domain)
            && offer.state.serverHello.nonce == nonce && offer.state.serverHello.point == XPublic(scalar)
            && offer.state.serverHello.kemKey == KemPublicKey(seed) && offer.state.kemSeed == seed
            && offer.state.curveSecret == XExchange(scalar, offer.state.clientHello.point)
  {
    OfferParts(w, domain, id, extensions, nonce, scalar, seed);
    var hello, claim := Find(extensions, CLIENT_HELLO).value, Find(extensions, CLIENT_DOMAIN);
    ParsedHello(hello);
    BuiltState(w, domain, id, ParseClientHello(hello).value, nonce, scalar, seed);
    if claim.Some? {
      AsTextExactly(claim.value, AsText(claim.value).value);
    }
  }

  /** The extension block of the server's first certificate entry. */
  function ServerFlight(w: World, state: ServerState): Result<Octets> {
    var hello :- ServerHelloBytes(w.serializer, state.serverHello);
    EncodeList([Extension(SERVER_HELLO, hello)])
  }

  function StoreServerHello(w: World, block: Octets): Result<ServerHello> {
    var list :- ParseList(block);
    var payload := Find(list, SERVER_HELLO);
    if payload.None? then Err("GN PQ server hello missing") else ParseServerHello(w.serializer, payload.value)
  }

  function EffectiveDomain(c: ClientSettings, hello: ServerHello): string {
    if c.acceptAny then hello.certificate.name else c.serverDomain
  }

  /** The completion and the certificate entry the client sends before its Finished. */
  function ClientFinished(
    w: World, c: ClientSettings, state: ClientState, hello: ServerHello, now: int,
    coins: nat): Result<(Completion, Entry)>
  {
    var authorityKey := w.authority(hello.certificate.centerDomain, hello.certificate.keyVersion);
    if authorityKey.None? then Err("Unknown GN PQ CA key")
    else
      var done :- CompleteClient(w, EffectiveDomain(c, hello), state, hello, authorityKey.value, now, c.kdcKey, coins);
      var entry :- ClientEntry(w, c, state, hello, done);
      Ok((done, entry))
  }

  function ClientEntry(
    w: World, c: ClientSettings, state: ClientState, hello: ServerHello, done: Completion): Result<Entry>
  {
    var finish :- ClientFinishBytes(done.finish);
    if c.identity.None? then Ok(AnonymousFlight(finish))
    else
      var id := c.identity.value;
      if ALGORITHM !in id.privateKeys then Err("no private key")
      else
        var helloBytes :- ServerHelloBytes(w.serializer, hello);
        var message := ClientMessage(id.certificate.name, ClientHelloBytes(state.hello), helloBytes, finish,
                                     Certificate.UnsignedBytes(w.serializer, id.certificate));
        CertifiedFlight(w.serializer, id.certificate, finish, ALGORITHM, Sign(id.privateKeys[ALGORITHM], message))
  }

  /** The server's check of a certified flight; the domain it authenticates. */
  function Authenticate(
    w: World, state: ServerState, claimed: Option<string>, f: Flight, now: int): Result<Option<string>>
  {
    if f.Anonymous? then Ok(None)
    else if !Supported(w, f.algorithm) then Err("MechanismNotSupportedError")
    else if claimed.Some? && !Covers(w.matcher, f.certificate.name, claimed.value) then Err("certificate name mismatch")
    else
      var authorityKey := w.authority(f.certificate.centerDomain, f.certificate.keyVersion);
      if authorityKey.None? then Err("Unknown GN PQ client CA key")
      else if !CertificateValid(w, f.certificate.name, f.certificate, authorityKey.value, now) then Err("certificate")
      else
        var hello :- ServerHelloBytes(w.serializer, state.serverHello);
        var finish :- ClientFinishBytes(f.finish);
        var key := Certificate.PublicKey(f.certificate, f.algorithm);
        if key.None? then Err("certificate does not contain algorithm")
        else if !SignatureValid(w, f.algorithm,
                                ClientMessage(f.certificate.name, ClientHelloBytes(state.clientHello), hello, finish,
                                              Certificate.UnsignedBytes(w.serializer, f.certificate)),
                                f.signature, key.value)
        then Err("Invalid client ML-DSA signature in certificate flight")
        else Ok(if claimed.Some? then claimed else Some(f.certificate.name))
  }

  function HandleCertificate(
    w: World, domain: string, offer: Offer, kdcKey: Option<Octets>, entry: Entry,
    now: int): Result<(Established, Option<string>)>
  {
    var flight :- ReadFlight(w.serializer, entry);
    var authenticated :- Authenticate(w, offer.state, offer.claimed, flight, now);
    var established :- CompleteServer(w, domain, offer.state, flight.finish, kdcKey);
    Ok((established, authenticated))
  }

  // ----- a whole run -----

  datatype Randomness = Randomness(
    clientNonce: Octets, clientScalar: nat, serverNonce: Octets, serverScalar: nat, kemSeed: nat, coins: nat)

  datatype Outcome = Outcome(
    hello: ServerHello, done: Completion, server: Established, authenticated: Option<string>)

  function ServerAnswers(w: World, c: ClientSettings, domain: string, id: Identity, r: Randomness): Result<Offer>
    requires |r.clientNonce| == NONCE_LEN
  {
    ReceiveClientHello(w, domain, id, ClientExtensions(c, BuildClient(r.clientNonce, r.clientScalar).hello),
                       r.serverNonce, r.serverScalar, r.kemSeed)
  }

  /** Hello, certificate and certificate flight, each carried as octets. */
  function RunHandshake(
    w: World, c: ClientSettings, domain: string, id: Identity, serverKdc: Option<Octets>, r: Randomness,
    now: int): Result<Outcome>
    requires |r.clientNonce| == NONCE_LEN
  {
    var offer :- ServerAnswers(w, c, domain, id, r);
    var block :- ServerFlight(w, offer.state);
    var hello :- StoreServerHello(w, block);
    var (done, entry) :- ClientFinished(w, c, BuildClient(r.clientNonce, r.clientScalar), hello, now, r.coins);
    var (established, authenticated) :- HandleCertificate(w, domain, offer, serverKdc, entry, now);
    Ok(Outcome(hello, done, established, authenticated))
  }
}
