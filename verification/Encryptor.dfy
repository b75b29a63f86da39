// The per-peer encryptor of the pre-QUIC datagram layer.
//
// AES-OCB is symbolic: a sealed packet opens under the key it was sealed with
// and under no other. Packets too short to hold a nonce and a tag, and octets
// that authenticate under no key, are separate cases.
module Encryptor {
  import opened Prelude
  import opened Bytes
  import opened Symbols
  import opened KeySchedule
  import opened KdcTables

  const NODE_CLIENT := "gn:node-client"
  const PQ_SERVER := "pq:server"
  const PQ_CLIENT := "pq:client"

  datatype Packet<T> =
    | Short
    | Noise
    | Sealed(key: Key, nonce: seq<Byte>, plain: T)

  /** The four key fields. */
  datatype Keyring = Keyring(
    keyIn: Option<Key>, prevKeyIn: Option<Key>, keyOut: Option<Key>, pendingKeyOut: Option<Key>)

  const EMPTY_RING := Keyring(None, None, None, None)

  function Installed(r: Keyring, keys: KeyPair): Keyring {
    r.(prevKeyIn := if r.keyIn.Some? then r.keyIn else r.prevKeyIn,
       keyIn := Some(keys.keyIn),
       keyOut := Some(keys.keyOut))
  }

  function ReceiveOnly(r: Keyring, keys: KeyPair): Keyring {
    r.(prevKeyIn := if r.keyIn.Some? then r.keyIn else r.prevKeyIn,
       keyIn := Some(keys.keyIn),
       pendingKeyOut := Some(keys.keyOut))
  }

  function Switched(r: Keyring): Keyring {
    if r.pendingKeyOut.Some? then r.(keyOut := r.pendingKeyOut, pendingKeyOut := None) else r
  }

  /** The keyring after an attempt to open a packet, and the plaintext. */
  function Opened<T>(r: Keyring, p: Packet<T>): (Keyring, Option<T>) {
    if p.Sealed? && r.keyIn == Some(p.key) then
      (if r.prevKeyIn.Some? then Switched(r).(prevKeyIn := None) else r, Some(p.plain))
    else if p.Sealed? && r.prevKeyIn == Some(p.key) then
      (r, Some(p.plain))
    else
      (r, None)
  }

  /** A stale pending key survives a bootstrap and takes effect with the first packet under it,
      unless there is none, it is the right one, or no earlier inbound key is remembered. */
  lemma BootstrapOverPending<T>(r: Keyring, keys: KeyPair, nonce: seq<Byte>, plain: T)
    ensures var (after, text) := Opened(Installed(r, keys), Sealed(keys.keyIn, nonce, plain));
            && text == Some(plain)
            && (after.keyOut == Some(keys.keyOut) <==>
                r.pendingKeyOut == None || r.pendingKeyOut == Some(keys.keyOut)
                || (r.keyIn == None && r.prevKeyIn == None))
  {
  }

  /** A key that was pending before a bootstrap takes the place of the new send key. */
  lemma StaleKeyExample<T>(keys: KeyPair, old_: Key, stale: Key, nonce: seq<Byte>, plain: T)
    requires stale != keys.keyOut
    ensures var r := Keyring(Some(old_), None, Some(old_), Some(stale));
            Opened(Installed(r, keys), Sealed(keys.keyIn, nonce, plain)).0.keyOut == Some(stale)
  {
  }

  /** Right after new keys are in place the end seals under the new send key, opens what is sealed under the new inbound
      key, and still opens what was sealed under the one before. */
  lemma InstalledStillOpens<T>(r: Keyring, keys: KeyPair, nonce: seq<Byte>, plain: T)
    ensures Installed(r, keys).keyOut == Some(keys.keyOut)
    ensures Opened(Installed(r, keys), Sealed(keys.keyIn, nonce, plain)).1 == Some(plain)
    ensures r.keyIn.Some? ==> Opened(Installed(r, keys), Sealed(r.keyIn.value, nonce, plain)).1 == Some(plain)
    ensures r.keyIn.Some? && r.keyIn.value != keys.keyIn ==>
              Opened(Installed(r, keys), Sealed(r.keyIn.value, nonce, plain)).0 == Installed(r, keys)
  {
  }

  /** After a receive-only change the end opens packets under both inbound keys, still seals under the former send key,
      and seals under the new one after the first packet under the new inbound key, or after the switch. */
  lemma ReceiveOnlyOpensBoth<T>(r: Keyring, keys: KeyPair, nonce: seq<Byte>, plain: T)
    requires r.keyIn.Some?
    ensures var s := ReceiveOnly(r, keys);
            && s.keyOut == r.keyOut && Switched(s).keyOut == Some(keys.keyOut)
            && Opened(s, Sealed(r.keyIn.value, nonce, plain)).1 == Some(plain)
            && Opened(s, Sealed(keys.keyIn, nonce, plain)).1 == Some(plain)
            && Opened(s, Sealed(keys.keyIn, nonce, plain)).0.keyOut == Some(keys.keyOut)
            && (r.keyIn.value != keys.keyIn ==>
                  && Opened(s, Sealed(r.keyIn.value, nonce, plain)).0 == s
                  && var settled := Opened(s, Sealed(keys.keyIn, nonce, plain)).0;
                     Opened(settled, Sealed(r.keyIn.value, nonce, plain)).1 == None)
  {
  }

  /** Without a current inbound key a change of keys keeps the one remembered before it. */
  lemma RememberedKeyKept<T>(r: Keyring, keys: KeyPair, key: Key, nonce: seq<Byte>, plain: T)
    requires r.keyIn == None && r.prevKeyIn == Some(key)
    ensures Opened(Installed(r, keys), Sealed(key, nonce, plain)).1 == Some(plain)
    ensures Opened(ReceiveOnly(r, keys), Sealed(key, nonce, plain)).1 == Some(plain)
  {
  }

  /** A packet opens exactly under the current or the previous inbound key; otherwise nothing changes. */
  lemma OpensExactly<T>(r: Keyring, p: Packet<T>)
    ensures Opened(r, p).1.Some? <==> p.Sealed? && (r.keyIn == Some(p.key) || r.prevKeyIn == Some(p.key))
    ensures Opened(r, p).1.Some? ==> Opened(r, p).1 == Some(p.plain)
    ensures Opened(r, p).1.None? ==> Opened(r, p).0 == r
  {
  }

  // ----- nonces -----

  const COUNTER_RANGE := 0x1_0000_0000_0000_0000

  function NextCounter(counter: nat): (c: nat)
    ensures c < COUNTER_RANGE
  {
    (counter + 1) % COUNTER_RANGE
  }

  /** Five octets of clock, eight of counter, two of randomness. */
  function Nonce(now: nat, counter: nat, random: nat): (n: seq<Byte>)
    requires counter < COUNTER_RANGE && random < 0x1_0000
    ensures |n| == 15
  {
    Pow256Values();
    ToBytes(now % 0x100_0000_0000, 5) + ToBytes(counter, 8) + ToBytes(random, 2)
  }

  /** The parts of a nonce: the clock modulo 2^40, the counter and the random number, each high octet first. */
  lemma NonceParts(now: nat, counter: nat, random: nat)
    requires counter < COUNTER_RANGE && random < 0x1_0000
    ensures var n := Nonce(now, counter, random);
            && FromBytes(n[..5]) == now % 0x100_0000_0000 && FromBytes(n[5..13]) == counter
            && FromBytes(n[13..]) == random
  {
    Pow256Values();
    var n := Nonce(now, counter, random);
    assert n[..5] == ToBytes(now % 0x100_0000_0000, 5);
    assert n[5..13] == ToBytes(counter, 8);
    assert n[13..] == ToBytes(random, 2);
  }

  lemma NonceCounter(n1: nat, c1: nat, r1: nat, n2: nat, c2: nat, r2: nat)
    requires c1 < COUNTER_RANGE && c2 < COUNTER_RANGE && r1 < 0x1_0000 && r2 < 0x1_0000
    requires Nonce(n1, c1, r1) == Nonce(n2, c2, r2)
    ensures c1 == c2
  {
    Pow256Values();
    assert Nonce(n1, c1, r1)[5..13] == ToBytes(c1, 8);
    assert Nonce(n2, c2, r2)[5..13] == ToBytes(c2, 8);
    ToBytesInjective(c1, c2, 8);
  }

  datatype Draw = Draw(now: nat, random: nat)

  predicate Draws(draws: seq<Draw>) {
    forall i :: 0 <= i < |draws| ==> draws[i].random < 0x1_0000
  }

  /** The counter after each of n encryptions. */
  function CounterRun(counter: nat, n: nat): (counters: seq<nat>)
    ensures |counters| == n
    ensures forall i :: 0 <= i < n ==> counters[i] < COUNTER_RANGE
    decreases n
  {
    if n == 0 then [] else [NextCounter(counter)] + CounterRun(NextCounter(counter), n - 1)
  }

  /** The nonces of a run of encryptions, whatever the clock and the generator return. */
  function NonceRun(counter: nat, draws: seq<Draw>): (nonces: seq<seq<Byte>>)
    requires Draws(draws)
    ensures |nonces| == |draws|
  {
    var counters := CounterRun(counter, |draws|);
    seq(|draws|, i requires 0 <= i < |draws| => Nonce(draws[i].now, counters[i], draws[i].random))
  }

  lemma {:induction false} CounterRunAt(counter: nat, n: nat, i: nat)
    requires i < n
    ensures CounterRun(counter, n)[i] == (counter + 1 + i) % COUNTER_RANGE
    decreases i
  {
    if i > 0 {
      var c := NextCounter(counter);
      CounterRunAt(c, n - 1, i - 1);
      var q := (counter + 1) / COUNTER_RANGE;
      assert counter + 1 + i == (c + i) + q * COUNTER_RANGE;
      ModShift(c + i, q);
    }
  }

  lemma {:induction false} ModShift(n: nat, q: nat)
    ensures (n + q * COUNTER_RANGE) % COUNTER_RANGE == n % COUNTER_RANGE
  {
    if q > 0 {
      ModShift(n, q - 1);
      ModStep(n + (q - 1) * COUNTER_RANGE);
      assert n + (q - 1) * COUNTER_RANGE + COUNTER_RANGE == n + q * COUNTER_RANGE;
    }
  }

  lemma ModStep(n: nat)
    ensures (n + COUNTER_RANGE) % COUNTER_RANGE == n % COUNTER_RANGE
  {
  }

  lemma CountersDiffer(start: nat, i: nat, j: nat)
    requires i < j < i + COUNTER_RANGE
    ensures (start + i) % COUNTER_RANGE != (start + j) % COUNTER_RANGE
  {
  }

  predicate AllDistinct<T(==)>(s: seq<T>) {
    forall i, j :: 0 <= i < j < |s| ==> s[i] != s[j]
  }

  /** Within 2^64 encryptions no nonce repeats (section 5.1 of RFC 7253). */
  lemma NoncesDistinct(counter: nat, draws: seq<Draw>)
    requires Draws(draws) && |draws| <= COUNTER_RANGE
    ensures AllDistinct(NonceRun(counter, draws))
  {
    forall i, j | 0 <= i < j < |draws|
      ensures NonceRun(counter, draws)[i] != NonceRun(counter, draws)[j]
    {
      CounterRunAt(counter, |draws|, i);
      CounterRunAt(counter, |draws|, j);
      CountersDiffer(counter + 1, i, j);
      var counters := CounterRun(counter, |draws|);
      var ci, cj := counters[i], counters[j];
      if NonceRun(counter, draws)[i] == NonceRun(counter, draws)[j] {
        NonceCounter(draws[i].now, ci, draws[i].random, draws[j].now, cj, draws[j].random);
      }
    }
  }

  lemma StillRepeats(counter: nat, still: seq<Draw>)
    requires |still| > COUNTER_RANGE && forall i :: 0 <= i < |still| ==> still[i] == Draw(0, 0)
    ensures !AllDistinct(NonceRun(counter, still))
  {
    CounterRunAt(counter, |still|, 0);
    CounterRunAt(counter, |still|, COUNTER_RANGE);
    ModStep(counter + 1);
    var nonces := NonceRun(counter, still);
    assert nonces[0] == nonces[COUNTER_RANGE];
  }

  /** The bound is exact: a longer run repeats a nonce when clock and generator stand still. */
  lemma NoncesDistinctExactly(counter: nat, n: nat)
    ensures n <= COUNTER_RANGE
            <==> forall draws: seq<Draw> :: |draws| == n && Draws(draws) ==> AllDistinct(NonceRun(counter, draws))
  {
    if n <= COUNTER_RANGE {
      forall draws: seq<Draw> | |draws| == n && Draws(draws) ensures AllDistinct(NonceRun(counter, draws)) {
        NoncesDistinct(counter, draws);
      }
    } else {
      StillRepeats(counter, seq(n, i => Draw(0, 0)));
    }
  }

  // ----- the encryptor object -----

  /** What an encryptor reads of its endpoint; the tables are those after any key request. */
  datatype Endpoint = Endpoint(selfDomain: string, domain: Option<string>, isServer: bool, kdc: KdcTable)

  /** `Blocked` stands for None, `NotReady` for False. */
  datatype Readiness = NotReady | Ready | Blocked

  datatype State = State(
    counter: nat, ready: Readiness, encryptionType: int, keyId: KeyId,
    domain: Option<string>, root64: Option<Octets>, ring: Keyring)

  /** Names that enter the bootstrap keys of a key id. */
  function BootstrapNames(e: Endpoint, keyId: KeyId, destination: string): (n: (string, string)) {
    if NodeKey(keyId) then
      if e.isServer then (destination, NODE_CLIENT) else (NODE_CLIENT, destination)
    else
      (e.selfDomain, destination)
  }

  /** The state initByKeyid leaves; an error keeps the earlier keys but not the earlier session. */
  function InitializedByKeyId(s: State, e: Endpoint, encryptionType: int, keyId: KeyId): (State, Result<string>) {
    var t := s.(encryptionType := encryptionType, keyId := keyId, root64 := None);
    match e.kdc.DomainById(keyId)
    case None => (t, Err("KeyDomainNotFound"))
    case Some(destination) =>
      match e.kdc.KeyOf(keyId)
      case None => (t, Err("TypeError"))
      case Some(key) =>
        var (local, peer) := BootstrapNames(e, keyId, destination);
        (t.(ring := Installed(s.ring, BootstrapKeys(key, local, peer)), ready := Ready, domain := Some(destination)),
         Ok(destination))
  }

  /** Whose names label the keys of a key id: those of the endpoint and of the id's domain, except that a client of a
      node goes by a marker, at both ends. */
  lemma BootstrapLabelled(s: State, e: Endpoint, encryptionType: int, id: KeyId)
    requires InitializedByKeyId(s, e, encryptionType, id).1.Ok?
    ensures var ring := InitializedByKeyId(s, e, encryptionType, id).0.ring;
            var key, peer := e.kdc.KeyOf(id).value, e.kdc.DomainById(id).value;
            ring.keyOut == Some(HkdfSha3(key, 32,
              if id.0 != 252 && id.0 != 253 then Text(e.selfDomain + peer)
              else if e.isServer then Text(peer + "gn:node-client") else Text("gn:node-client" + peer),
              "gn:DgEncryptor"))
  {
    var key, peer := e.kdc.KeyOf(id).value, e.kdc.DomainById(id).value;
    DirectionLabelled(key, e.selfDomain, peer, BOOTSTRAP_INFO);
    DirectionLabelled(key, peer, NODE_CLIENT, BOOTSTRAP_INFO);
    DirectionLabelled(key, NODE_CLIENT, peer, BOOTSTRAP_INFO);
  }

  function Marker(isServer: bool): string {
    if isServer then PQ_SERVER else PQ_CLIENT
  }

  function Type2Keys(isServer: bool): KeyPair {
    BootstrapKeys([], Marker(isServer), Marker(!isServer))
  }

  function Type2Installed(s: State, e: Endpoint, keys: KeyPair): State {
    s.(encryptionType := 2, keyId := (250, 0), root64 := None,
       ring := Installed(s.ring, keys), ready := Ready, domain := e.domain)
  }

  function InitializedType2(s: State, e: Endpoint, isServer: bool): State {
    Type2Installed(s, e, Type2Keys(isServer))
  }

  function InitializedRaw(s: State): State {
    s.(encryptionType := 0, keyId := (0, 0), root64 := None, ready := Ready)
  }

  function InitializedByDomain(s: State, e: Endpoint, encryptionType: int, domain: string): (State, Result<KeyId>) {
    var t := s.(encryptionType := encryptionType, root64 := None);
    if encryptionType == 0 then (InitializedRaw(t), Ok((0, 0)))
    else if encryptionType == 2 then (InitializedType2(t, e, false), Ok((250, 0)))
    else
      match e.kdc.KeyIdByDomain(domain)
      case None => (t.(keyId := (0, 0)), Err("KeyIdNotFound"))
      case Some(id) =>
        match e.kdc.KeyOf(id)
        case None => (t.(keyId := id), Err("TypeError"))
        case Some(key) =>
          (t.(keyId := id, ring := Installed(s.ring, BootstrapKeys(key, e.selfDomain, domain)),
              ready := Ready, domain := Some(domain)),
           Ok(id))
  }

  /** Which initializations succeed, and with which key id: without encryption and with markers always, and otherwise
      when the tables have what is looked up. A failure leaves keys and readiness alone, and drops the session root. */
  lemma InitializesExactly(s: State, e: Endpoint, encryptionType: int, domain: string, id: KeyId)
    ensures var (t, r) := InitializedByDomain(s, e, encryptionType, domain);
            && (encryptionType == 0 ==> r == Ok((0, 0)) && t.keyId == (0, 0) && t.ring == s.ring && t.ready == Ready)
            && (encryptionType == 2 ==> r == Ok((250, 0)) && t.keyId == (250, 0) && t.domain == e.domain)
            && (encryptionType != 0 && encryptionType != 2 ==>
                  && (r == Ok(id) <==> e.kdc.KeyIdByDomain(domain) == Some(id) && e.kdc.KeyOf(id).Some?)
                  && (r.Ok? ==> t.keyId == r.value && t.domain == Some(domain)))
            && (r.Err? ==>
                  && t.ring == s.ring && t.ready == s.ready
                  && t.keyId == (if e.kdc.KeyIdByDomain(domain).None? then (0, 0)
                                 else e.kdc.KeyIdByDomain(domain).value))
            && t.root64 == None && t.counter == s.counter && t.encryptionType == encryptionType
    ensures var (t, r) := InitializedByKeyId(s, e, encryptionType, id);
            && (r == Ok(domain) <==> e.kdc.DomainById(id) == Some(domain) && e.kdc.KeyOf(id).Some?)
            && (r.Err? ==> t.ring == s.ring && t.ready == s.ready) && t.root64 == None && t.counter == s.counter
            && t.encryptionType == encryptionType && t.keyId == id
    ensures var t := InitializedRaw(s);
            && t.encryptionType == 0 && t.keyId == (0, 0) && t.root64 == None && t.ready == Ready && t.ring == s.ring
            && t.domain == s.domain && t.counter == s.counter
  {
  }

  class ConnectionEncryptor {
    var counter: nat
    var ready: Readiness
    var encryptionType: int
    var keyId: KeyId
    var domain: Option<string>
    var sessionRoot64: Option<Octets>
    var keyIn: Option<Key>
    var prevKeyIn: Option<Key>
    var keyOut: Option<Key>
    var pendingKeyOut: Option<Key>

    function Ring(): Keyring
      reads this
    {
      Keyring(keyIn, prevKeyIn, keyOut, pendingKeyOut)
    }

    function View(): State
      reads this
    {
      State(counter, ready, encryptionType, keyId, domain, sessionRoot64, Ring())
    }

    constructor ()
      ensures View() == State(0, NotReady, 0, (0, 0), None, None, EMPTY_RING)
    {
      counter := 0;
      ready := NotReady;
      encryptionType := 0;
      keyId := (0, 0);
      domain := None;
      sessionRoot64 := None;
      keyIn, prevKeyIn, keyOut, pendingKeyOut := None, None, None, None;
    }

    method SetTransportKeys(keys: KeyPair) returns (ok: bool)
      modifies this`keyIn, this`prevKeyIn, this`keyOut
      ensures ok == (|keys.keyIn| == 32 && |keys.keyOut| == 32)
      ensures Ring() == if ok then Installed(old(Ring()), keys) else old(Ring())
    {
      if |keys.keyIn| != 32 || |keys.keyOut| != 32 {
        return false;
      }
      if keyIn.Some? {
        prevKeyIn := keyIn;
      }
      keyIn := Some(keys.keyIn);
      keyOut := Some(keys.keyOut);
      return true;
    }

    method SetSessionRoot64(root64: Octets, selfDomain: string, peerDomain: string) returns (ok: bool)
      modifies this`keyIn, this`prevKeyIn, this`keyOut, this`sessionRoot64
      ensures ok == (|root64| == 64)
      ensures View() == if ok
                        then old(View()).(ring := Installed(old(Ring()), TransportKeys(root64, selfDomain, peerDomain)),
                                          root64 := Some(root64))
                        else old(View())
    {
      if |root64| != 64 {
        return false;
      }
      ok := SetTransportKeys(TransportKeys(root64, selfDomain, peerDomain));
      sessionRoot64 := Some(root64);
    }

    method SetSessionRoot64ReceiveOnly(root64: Octets, localDomain: string, peerDomain: string) returns (ok: bool)
      modifies this`keyIn, this`prevKeyIn, this`pendingKeyOut, this`sessionRoot64
      ensures ok == (|root64| == 64)
      ensures var keys := TransportKeys(root64, localDomain, peerDomain);
              View() == if ok then old(View()).(ring := ReceiveOnly(old(Ring()), keys), root64 := Some(root64))
                        else old(View())
    {
      if |root64| != 64 {
        return false;
      }
      var keys := TransportKeys(root64, localDomain, peerDomain);
      if keyIn.Some? {
        prevKeyIn := keyIn;
      }
      keyIn := Some(keys.keyIn);
      pendingKeyOut := Some(keys.keyOut);
      sessionRoot64 := Some(root64);
      return true;
    }

    method ApplyPendingKeyOut()
      modifies this`keyOut, this`pendingKeyOut
      ensures Ring() == Switched(old(Ring()))
    {
      if pendingKeyOut.Some? {
        keyOut := pendingKeyOut;
        pendingKeyOut := None;
      }
    }

    method RestoreInactiveSession(type_: int, id: KeyId, root64: Octets, selfDomain: string, peerDomain: string)
      returns (ok: bool)
      modifies this
      ensures ok == (|root64| == 64)
      ensures var t := old(View()).(encryptionType := type_, keyId := id, domain := Some(peerDomain), ready := Ready);
              View() == if ok
                        then t.(ring := Installed(t.ring, TransportKeys(root64, selfDomain, peerDomain)),
                                root64 := Some(root64))
                        else t
    {
      encryptionType := type_;
      keyId := id;
      domain := Some(peerDomain);
      ready := Ready;
      ok := SetSessionRoot64(root64, selfDomain, peerDomain);
    }

    method InitByKeyId(e: Endpoint, type_: int, id: KeyId) returns (r: Result<string>)
      modifies this
      ensures (View(), r) == InitializedByKeyId(old(View()), e, type_, id)
    {
      encryptionType := type_;
      keyId := id;
      sessionRoot64 := None;
      var key := e.kdc.KeyOf(id);
      var destination := e.kdc.DomainById(id);
      if destination.None? {
        return Err("KeyDomainNotFound");
      }
      if key.None? {
        return Err("TypeError");
      }
      var (local, peer) := BootstrapNames(e, id, destination.value);
      var ok := SetTransportKeys(BootstrapKeys(key.value, local, peer));
      ready := Ready;
      domain := destination;
      return Ok(destination.value);
    }

    method InitRaw()
      modifies this
      ensures View() == InitializedRaw(old(View()))
    {
      encryptionType := 0;
      keyId := (0, 0);
      sessionRoot64 := None;
      ready := Ready;
    }

    method InstallType2(e: Endpoint, keys: KeyPair)
      requires |keys.keyIn| == 32 && |keys.keyOut| == 32
      modifies this
      ensures View() == Type2Installed(old(View()), e, keys)
    {
      encryptionType := 2;
      keyId := (250, 0);
      sessionRoot64 := None;
      var ok := SetTransportKeys(keys);
      ready := Ready;
      domain := e.domain;
    }

    method InitType2(e: Endpoint, isServer: bool)
      modifies this
      ensures View() == InitializedType2(old(View()), e, isServer)
    {
      InstallType2(e, Type2Keys(isServer));
    }

    method InitByDomain(e: Endpoint, type_: int, name: string) returns (r: Result<KeyId>)
      modifies this
      ensures (View(), r) == InitializedByDomain(old(View()), e, type_, name)
    {
      encryptionType := type_;
      sessionRoot64 := None;
      if type_ == 0 {
        InitRaw();
        return Ok((0, 0));
      }
      if type_ == 2 {
        InitType2(e, false);
        return Ok((250, 0));
      }
      var id := e.kdc.KeyIdByDomain(name);
      if id.None? {
        keyId := (0, 0);
        return Err("KeyIdNotFound");
      }
      keyId := id.value;
      var key := e.kdc.KeyOf(keyId);
      if key.None? {
        return Err("TypeError");
      }
      var ok := SetTransportKeys(BootstrapKeys(key.value, e.selfDomain, name));
      ready := Ready;
      domain := Some(name);
      return Ok(keyId);
    }

    method MakeNonce(now: nat, random: nat) returns (nonce: seq<Byte>)
      requires random < 0x1_0000
      modifies this`counter
      ensures counter == NextCounter(old(counter))
      ensures nonce == Nonce(now, counter, random)
    {
      counter := (counter + 1) % COUNTER_RANGE;
      Pow256Values();
      nonce := ToBytes(now % 0x100_0000_0000, 5) + ToBytes(counter, 8) + ToBytes(random, 2);
    }

    /** The caller has checked that transport keys are present. */
    method Encrypt<T>(plain: T, now: nat, random: nat) returns (p: Packet<T>)
      requires keyOut.Some? && random < 0x1_0000
      modifies this`counter
      ensures counter == NextCounter(old(counter))
      ensures p == Sealed(keyOut.value, Nonce(now, counter, random), plain)
    {
      var nonce := MakeNonce(now, random);
      p := Sealed(keyOut.value, nonce, plain);
    }

    method Decrypt<T>(p: Packet<T>) returns (plain: Option<T>)
      modifies this`keyOut, this`pendingKeyOut, this`prevKeyIn
      ensures (Ring(), plain) == Opened(old(Ring()), p)
    {
      if p.Short? {
        return None;
      }
      if p.Sealed? && keyIn == Some(p.key) {
        if prevKeyIn.Some? {
          if pendingKeyOut.Some? {
            ApplyPendingKeyOut();
          }
          prevKeyIn := None;
        }
        return Some(p.plain);
      }
      if p.Sealed? && prevKeyIn == Some(p.key) {
        return Some(p.plain);
      }
      return None;
    }
  }
}
