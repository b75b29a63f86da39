// A serializer that can be undone, and two handshakes that complete with it.
module Witness {
  import opened Prelude
  import opened Symbols
  import opened Certificate
  import opened CertificateNames
  import Configuration
  import opened Handshake
  import opened Agreement
  import opened HandshakeRuns

  // ----- a lawful serializer -----

  function Natural(n: int): nat {
    if n >= 0 then 2 * n else -2 * n - 1
  }

  /** One octet for each value: the terms tell the values apart. */
  function Image(v: Value): Octet {
    match v
    case VInt(n) => Out(CurveShared(0, Natural(n)), 0)
    case VBool(b) => Out(CurveShared(1, if b then 1 else 0), 0)
    case VTime(Naive(instant)) => Out(CurveShared(2, Natural(instant)), 0)
    case VTime(Aware(instant, offset)) => Out(CurveShared(3, Natural(instant)), Natural(offset))
    case VStr(s) => Out(Hkdf([], [], s, 0), 0)
    case VBytes(o) => Out(Sha3(o), 0)
    case VDict(entries) =>
      Out(Sha3(seq(|entries|, i requires 0 <= i < |entries| => EntryImage(entries[i].0, Image(entries[i].1)))), 1)
    case VOther(tag) => Out(CurvePoint(tag), 0)
  }

  function EntryImage(key: string, value: Octet): Octet {
    Out(Hkdf([value], [], key, 0), 0)
  }

  function Images(entries: Dict): (o: Octets)
    ensures |o| == |entries|
    ensures forall i :: 0 <= i < |entries| ==> o[i] == EntryImage(entries[i].0, Image(entries[i].1))
  {
    seq(|entries|, i requires 0 <= i < |entries| => EntryImage(entries[i].0, Image(entries[i].1)))
  }

  lemma DictImage(entries: Dict)
    ensures Image(VDict(entries)) == Out(Sha3(Images(entries)), 1)
  {
    var o := seq(|entries|, i requires 0 <= i < |entries| => EntryImage(entries[i].0, Image(entries[i].1)));
    assert o == Images(entries);
  }

  lemma EntryImageInjective(k: string, a: Octet, l: string, b: Octet)
    requires EntryImage(k, a) == EntryImage(l, b)
    ensures k == l && a == b
  {
    assert [a][0] == [b][0];
  }

  /** Different values have different octets. */
  lemma {:induction false} ImageInjective(a: Value, b: Value)
    requires Image(a) == Image(b)
    ensures a == b
    decreases a
  {
    if a.VDict? && b.VDict? {
      DictImage(a.entries);
      DictImage(b.entries);
      assert Images(a.entries) == Images(b.entries);
      forall i | 0 <= i < |a.entries| ensures a.entries[i] == b.entries[i] {
        assert Images(a.entries)[i] == Images(b.entries)[i];
        EntryImageInjective(a.entries[i].0, Image(a.entries[i].1), b.entries[i].0, Image(b.entries[i].1));
        ImageInjective(a.entries[i].1, b.entries[i].1);
      }
    }
  }

  ghost function Undo(o: Octets): Option<Value> {
    if exists v: Value :: o == [Image(v)] then
      var v: Value :| o == [Image(v)];
      Some(v)
    else None
  }

  ghost function Codec(): Serializer {
    Serializer(v => [Image(v)], (o: Octets) => Undo(o))
  }

  lemma CodecIsLawful()
    ensures Lawful(Codec())
  {
    var s := Codec();
    forall v: Value ensures s.load(s.dump(v)) == Some(v) && s.dump(v) != [] {
      var o := s.dump(v);
      assert o == [Image(v)];
      var back := Undo(o).value;
      assert [Image(back)][0] == [Image(v)][0];
      ImageInjective(back, v);
    }
  }

  // ----- a world with one authority, and one identity in it -----

  const AUTHORITY_SEED: nat := 7
  const IDENTITY_SEED: nat := 5

  function Algorithms(): Dict {
    [(ALGORITHM, VDict([("pub", VBytes(SignPublicKey(IDENTITY_SEED)))]))]
  }

  function Contents(): Dict {
    Configuration.Described("a", 1, "n", Algorithms(), Naive(0))
  }

  function Setup(): Configuration.Setup {
    Configuration.Setup(text => None, algorithm => true, algorithm => 2592, 4627)
  }

  ghost function Shared(): World {
    World(Codec(), (pattern, domain) => false, (center, version) => Some(SignPublicKey(AUTHORITY_SEED)), Setup(),
          (algorithm, message, signature, key) => false)
  }

  ghost function Attested(): Octets {
    Sign(AUTHORITY_SEED, Codec().dump(VDict(Contents())))
  }

  ghost function Certified(): Cert {
    Cert("a", 1, "n", [(ALGORITHM, SignPublicKey(IDENTITY_SEED))], Aware(0, 0), Attested(), Some(Contents()))
  }

  ghost function Person(): Identity {
    Identity(Certified(), map[ALGORITHM := IDENTITY_SEED])
  }

  lemma OneOctetKey(e: Configuration.Setup, name: string, key: Octets)
    requires name != "" && Normalize(name) == name && e.enabled(name) && |key| == e.keyLength(name)
    ensures var algs := [(name, VDict([("pub", VBytes(key))]))];
            Configuration.ConfiguredKeys(e, [], algs) == Some([(name, key)]) && OctetKeys(algs)
  {
    var v := VDict([("pub", VBytes(key))]);
    assert PubOf(v) == Some(VBytes(key));
    var algs := [(name, v)];
    assert Configuration.ReadKey(e, name, v) == Some((name, key));
    assert Put([], name, key) == [(name, key)];
    assert algs[1..] == [];
    assert algs[0] == (name, v);
    assert Configuration.ConfiguredKeys(e, [(name, key)], algs[1..]) == Some([(name, key)]);
  }

  lemma KeysAreConfigured()
    ensures Configuration.ConfiguredKeys(Setup(), [], Algorithms()) == Some([(ALGORITHM, SignPublicKey(IDENTITY_SEED))])
    ensures OctetKeys(Algorithms())
  {
    Configuration.NormalName();
    assert |ALGORITHM| == 9;
    OneOctetKey(Setup(), ALGORITHM, SignPublicKey(IDENTITY_SEED));
  }

  lemma CertificateIsConfigured()
    ensures Configuration.Sized(Setup()) && Configuration.Configured(Setup(), Certified())
    ensures Readable(Certified())
  {
    var sign := VBytes(Attested());
    KeysAreConfigured();
    assert |"a"| == 1 && |"n"| == 1;
    Configuration.ContainerParses(Setup(), "a", 1, "n", Algorithms(), Naive(0), sign,
                                  [(ALGORITHM, SignPublicKey(IDENTITY_SEED))], Attested());
    Configuration.ContainerFields("a", 1, "n", Algorithms(), Naive(0), sign);
    assert Configuration.ParseCertificate(Setup(), Configuration.Container("a", 1, "n", Algorithms(), Naive(0), sign))
           == Ok(Certified());
  }

  lemma NameStandsAlone()
    ensures "n" != "" && ',' !in "n" && Strip("n") == "n"
  {
    assert |"n"| == 1 && "n"[0] == 'n';
    assert StripLeft("n") == "n";
  }

  lemma PersonIsAcceptable(now: int)
    requires now <= 0
    ensures SelfValid(Shared(), Certified(), now) && Matching(Person())
    ensures ServerAcceptable(Shared(), "n", Person(), now)
    ensures HelloLength(Shared(), Certified()) <= 0xFFFF
  {
    NameStandsAlone();
    Configuration.NormalName();
    VerifySigned(AUTHORITY_SEED, UnsignedBytes(Shared().serializer, Certified()), SignPublicKey(AUTHORITY_SEED),
                 UnsignedBytes(Shared().serializer, Certified()));
    SelfValidExactly(Shared(), Certified(), now);
    AlgorithmFits();
  }

  /** The client of a run, anonymous or with the same certificate. */
  function Settings(id: Identity, anonymous: bool, kdcKey: Option<Octets>): ClientSettings {
    var name := id.certificate.name;
    if anonymous then ClientSettings(name, kdcKey, false, None, None)
    else ClientSettings(name, kdcKey, false, Some(name), Some(id))
  }

  lemma OwnNameAcceptable(w: World, id: Identity, anonymous: bool, kdcKey: Option<Octets>, now: int)
    requires SelfValid(w, id.certificate, now) && Matching(id)
    ensures var c := Settings(id, anonymous, kdcKey);
            && (c.identity.Some? ==> ClientAcceptable(w, c, c.identity.value, now))
            && (!anonymous ==> LocalName(c) == Some(id.certificate.name))
  {
    CoversItself(w.matcher, id.certificate.name);
  }

  lemma PersonIsCarried(anonymous: bool, kdcKey: Option<Octets>)
    ensures Carried(Shared(), Settings(Person(), anonymous, kdcKey), Person())
  {
    CodecIsLawful();
    CertificateIsConfigured();
  }

  /** With any KDC keys and any randomness the run completes, so the conditions of the agreement results can be met;
      both ends hold one root when their KDC keys are equal, and the server knows whom it talks to. */
  lemma RunsComplete(anonymous: bool, kdcKey: Option<Octets>, serverKdc: Option<Octets>, r: Randomness, now: int)
    requires Nonces(r) && now <= 0
    ensures var w, c := Shared(), Settings(Person(), anonymous, kdcKey);
            && Carried(w, c, Person())
            && RunHandshake(w, c, "n", Person(), serverKdc, r, now).Ok?
            && var o := RunHandshake(w, c, "n", Person(), serverKdc, r, now).value;
            && (o.server.root64 == o.done.established.root64 <==> kdcKey == serverKdc)
            && o.authenticated == (if anonymous then None else Some("n"))
  {
    var w, c := Shared(), Settings(Person(), anonymous, kdcKey);
    PersonIsCarried(anonymous, kdcKey);
    CertificateIsConfigured();
    PersonIsAcceptable(now);
    OwnNameAcceptable(w, Person(), anonymous, kdcKey, now);
    RunCompletesExactly(w, c, "n", Person(), serverKdc, r, now);
    HandshakeAgreement(w, c, "n", Person(), serverKdc, r, now);
  }
}
