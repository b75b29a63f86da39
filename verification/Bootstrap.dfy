// The ten-octet header of an Initial datagram, and the bootstrap keys both ends
// install from it.
module Bootstrap {
  import opened Prelude
  import opened Bytes
  import opened Symbols
  import opened KeySchedule
  import opened KdcTables
  import opened Encryptor

  const MAX_KEY_ID := 0x7F_FFFF_FFFF_FFFF

  /** The 55-bit number a key id is folded to before it is sent. */
  function FoldedId(id: int): (n: nat)
    ensures n <= MAX_KEY_ID
    ensures n == id <==> 0 <= id <= MAX_KEY_ID
  {
    var positive := if id < 0 then -id else id;
    if positive > MAX_KEY_ID then positive % MAX_KEY_ID else positive
  }

  /** Beyond the bound ids are folded by their distance from zero, modulo the bound. */
  lemma FoldsModulo(id: int)
    ensures FoldedId(-id) == FoldedId(id)
    ensures id > MAX_KEY_ID ==> FoldedId(id) < MAX_KEY_ID && (id - FoldedId(id)) % MAX_KEY_ID == 0
  {
  }

  function IdOctets(number: nat): (s: seq<Byte>)
    requires number <= MAX_KEY_ID
    ensures |s| == 7 && FromBytes(s) == number
  {
    Pow256Values();
    ToBytes(number, 7)
  }

  /** None stands for the overflow error of a key type beyond one octet. */
  function InitialHeader(version: nat, encryptionType: nat, keyId: KeyId): (h: Option<seq<Byte>>)
    ensures h.Some? <==> 0 <= keyId.0 < 256
    ensures h.Some? ==> |h.value| == 10
  {
    if !(0 <= keyId.0 < 256) then None else
      Some([version % 128 * 2 + 1, encryptionType % 16, keyId.0] + IdOctets(FoldedId(keyId.1)))
  }

  /** Only seven bits of the version and four of the type are sent. */
  lemma HeaderMasks(version: nat, encryptionType: nat, keyId: KeyId)
    ensures InitialHeader(version, encryptionType, keyId) == InitialHeader(version % 128, encryptionType % 16, keyId)
  {
  }

  method FoldId(id: int) returns (number: nat)
    ensures number == FoldedId(id)
  {
    number := if id < 0 then -id else id;
    if number > MAX_KEY_ID {
      number := number % MAX_KEY_ID;
    }
  }

  method ConstructInitial(version: nat, encryptionType: nat, keyId: KeyId) returns (header: Option<seq<Byte>>)
    ensures header == InitialHeader(version, encryptionType, keyId)
  {
    var data: seq<Byte> := [version % 128 * 2 + 1];
    var number := FoldId(keyId.1);
    data := data + [encryptionType % 16];
    if keyId.0 < 0 || keyId.0 >= 256 {
      return None;
    }
    data := data + [keyId.0];
    assert data == [version % 128 * 2 + 1, encryptionType % 16, keyId.0];
    return Some(data + IdOctets(number));
  }

  datatype SystemPacket =
    | TooShort
    | BootstrapError(code: nat, expectedType: nat)
    | Initial(encryptionType: nat, keyId: Option<KeyId>, body: seq<Byte>)
    | Unknown(command: nat, body: seq<Byte>)

  /** A datagram whose low bit is set, as the receiver takes it apart. */
  function ParseSystem(data: seq<Byte>): SystemPacket {
    if |data| < 2 then TooShort
    else
      var command := data[1] / 16 % 16;
      if command == 1 then
        if |data| >= 3 then BootstrapError(data[1] % 16, data[2]) else TooShort
      else if |data| < 10 then TooShort
      else if command == 0 then
        Initial(data[1] % 16,
                if data[1] % 16 == 0 then None else Some((data[2], FromBytes(data[3..10]))),
                data[10..])
      else Unknown(command, data[10..])
  }

  /** What each system datagram is taken for, by its octets. */
  lemma ParsesExactly(data: seq<Byte>)
    ensures var p := ParseSystem(data);
            && (p.BootstrapError? <==> |data| >= 3 && 16 <= data[1] < 32)
            && (p.BootstrapError? ==> p == BootstrapError(data[1] - 16, data[2]))
            && (p.Initial? <==> |data| >= 10 && data[1] < 16)
            && (p.Initial? ==>
                  && p.encryptionType == data[1] && p.body == data[10..]
                  && (p.keyId.None? <==> data[1] == 0)
                  && (p.keyId.Some? ==> p.keyId.value == (data[2], FromBytes(data[3..10]))))
            && (p.Unknown? <==> |data| >= 10 && data[1] >= 32)
            && (p.Unknown? ==> p.command == data[1] / 16 && p.body == data[10..])
  {
  }

  /** The receiver reads the sender's type and, for encrypted types, key id back exactly up to 2^55 - 1. */
  lemma HeaderRoundTrip(version: nat, encryptionType: nat, keyId: KeyId, body: seq<Byte>)
    requires encryptionType < 16 && 0 <= keyId.0 < 256
    ensures var p := ParseSystem(InitialHeader(version, encryptionType, keyId).value + body);
            && p.Initial? && p.encryptionType == encryptionType && p.body == body
            && (p.keyId == (if encryptionType == 0 then None else Some(keyId))
                <==> encryptionType == 0 || 0 <= keyId.1 <= MAX_KEY_ID)
  {
    Pow256Values();
    var h := InitialHeader(version, encryptionType, keyId).value;
    var data := h + body;
    var id := IdOctets(FoldedId(keyId.1));
    assert data[3..10] == id;
    assert data[10..] == body;
    assert data[1] == encryptionType && data[2] == keyId.0;
  }

  /** Within that bound the header carries the key id over. */
  lemma HeaderCarries(version: nat, encryptionType: nat, keyId: KeyId, body: seq<Byte>)
    requires 0 < encryptionType < 16 && 0 <= keyId.0 < 256 && 0 <= keyId.1 <= MAX_KEY_ID
    ensures ParseSystem(InitialHeader(version, encryptionType, keyId).value + body)
            == Initial(encryptionType, Some(keyId), body)
  {
    HeaderRoundTrip(version, encryptionType, keyId, body);
  }

  /** One more than the largest id reads back as 1. */
  lemma LargeIdIsLost(version: nat, body: seq<Byte>)
    ensures ParseSystem(InitialHeader(version, 1, (1, 0x80_0000_0000_0000)).value + body)
            == Initial(1, Some((1, 1)), body)
  {
    var id := 0x80_0000_0000_0000;
    HeaderRoundTrip(version, 1, (1, id), body);
    HeaderCarries(version, 1, (1, 1), body);
    assert FoldedId(id) == 1 && FoldedId(1) == 1;
    assert InitialHeader(version, 1, (1, id)) == InitialHeader(version, 1, (1, 1));
  }

  // ----- both ends -----

  /** Current inbound and outbound keys, without what a later switch may change. */
  function Current(s: State): Option<KeyPair> {
    if s.ring.keyIn.Some? && s.ring.keyOut.Some? then Some(KeyPair(s.ring.keyIn.value, s.ring.keyOut.value)) else None
  }

  predicate EndsMirror(a: State, b: State) {
    Current(a).Some? && Current(b).Some? && Mirrored(Current(a).value, Current(b).value)
  }

  /** Ends mirror each other exactly when each opens, under its current key, what the other seals. */
  lemma MirroredEndsTalk<T>(a: State, b: State, nonce: seq<Byte>, plain: T)
    requires a.ring.prevKeyIn == None && b.ring.prevKeyIn == None
    requires a.ring.keyIn.Some? && a.ring.keyOut.Some? && b.ring.keyIn.Some? && b.ring.keyOut.Some?
    ensures EndsMirror(a, b)
            <==> && Opened(b.ring, Sealed(a.ring.keyOut.value, nonce, plain)) == (b.ring, Some(plain))
                 && Opened(a.ring, Sealed(b.ring.keyOut.value, nonce, plain)) == (a.ring, Some(plain))
  {
  }

  /** What the server's encryptor becomes when it accepts the Initial and has the key. */
  function ServerAccepts(s: State, e: Endpoint, p: SystemPacket): (State, Result<string>)
    requires p.Initial? && p.encryptionType != 0 && (p.encryptionType != 2 ==> p.keyId.Some?)
  {
    if p.encryptionType == 2 then (InitializedType2(s, e, true), Ok(""))
    else InitializedByKeyId(s, e, p.encryptionType, p.keyId.value)
  }

  /** Type 2: the fixed markers mirror each other whatever either side held before. */
  lemma Type2Mirrors(
    client: State, ce: Endpoint, server: State, se: Endpoint, version: nat, target: string, body: seq<Byte>)
    ensures var (c, id) := InitializedByDomain(client, ce, 2, target);
            && id == Ok((250, 0))
            && var header := InitialHeader(version, 2, id.value);
            && header.Some?
            && var p := ParseSystem(header.value + body);
            && p.Initial? && p.encryptionType == 2 && p.keyId.Some?
            && var s := ServerAccepts(server, se, p).0;
            && s.keyId == c.keyId && s.encryptionType == c.encryptionType
            && EndsMirror(c, s)
  {
    HeaderRoundTrip(version, 2, (250, 0), body);
    Type2KeysMirror();
  }

  lemma Type2KeysMirror()
    ensures Mirrored(Type2Keys(false), Type2Keys(true))
  {
  }

  /** The client of type 2 seals under the empty secret, labelled by the client's marker and then the server's. */
  lemma Type2ClientLabelled()
    ensures Type2Keys(false).keyOut == HkdfSha3([], 32, Text("pq:client" + "pq:server"), BOOTSTRAP_INFO)
    ensures Type2Keys(true).keyIn == Type2Keys(false).keyOut
  {
    DirectionLabelled([], PQ_CLIENT, PQ_SERVER, BOOTSTRAP_INFO);
    Type2KeysMirror();
  }

  /** Ordinary key ids, resolved by name at the client: given that the server's table names the client,
      the ends mirror exactly when they share the key and the client meant the server's own name. */
  lemma OrdinaryKeyMirrors(
    client: State, ce: Endpoint, server: State, se: Endpoint,
    version: nat, encryptionType: nat, target: string, body: seq<Byte>)
    requires 0 < encryptionType < 16 && encryptionType != 2
    requires InitializedByDomain(client, ce, encryptionType, target).1.Ok?
    requires var id := InitializedByDomain(client, ce, encryptionType, target).1.value;
             && 0 <= id.0 < 256 && 0 <= id.1 <= MAX_KEY_ID && !NodeKey(id)
             && se.kdc.DomainById(id) == Some(ce.selfDomain) && se.kdc.KeyOf(id).Some?
    ensures var (c, id) := InitializedByDomain(client, ce, encryptionType, target);
            var p := ParseSystem(InitialHeader(version, encryptionType, id.value).value + body);
            && p == Initial(encryptionType, Some(id.value), body)
            && var (s, r) := ServerAccepts(server, se, p);
            && r == Ok(ce.selfDomain) && s.keyId == c.keyId && s.encryptionType == c.encryptionType
            && (EndsMirror(c, s) <==> ce.kdc.KeyOf(id.value) == se.kdc.KeyOf(id.value) && target == se.selfDomain)
  {
    var (c, id) := InitializedByDomain(client, ce, encryptionType, target);
    HeaderCarries(version, encryptionType, id.value, body);
    var ck, sk := ce.kdc.KeyOf(id.value).value, se.kdc.KeyOf(id.value).value;
    MirroredExactly(ck, ce.selfDomain, target, sk, se.selfDomain, ce.selfDomain, BOOTSTRAP_INFO);
    SameAfter(ce.selfDomain, target, se.selfDomain);
  }

  lemma SameAfter(prefix: string, a: string, b: string)
    ensures prefix + a == prefix + b <==> a == b
    ensures a + prefix == b + prefix <==> a == b
  {
    if prefix + a == prefix + b {
      assert (prefix + a)[|prefix|..] == a && (prefix + b)[|prefix|..] == b;
    }
    if a + prefix == b + prefix {
      assert |a| == |b|;
      assert (a + prefix)[..|a|] == a && (b + prefix)[..|b|] == b;
    }
  }

  /** Node ids 252 and 253, given by id at the client: the ends mirror exactly when
      their tables agree on the node's name and on the key. */
  lemma NodeKeyMirrors(
    client: State, ce: Endpoint, server: State, se: Endpoint,
    version: nat, encryptionType: nat, id: KeyId, body: seq<Byte>)
    requires 0 < encryptionType < 16 && encryptionType != 2
    requires NodeKey(id) && 0 <= id.1 <= MAX_KEY_ID && !ce.isServer && se.isServer
    requires InitializedByKeyId(client, ce, encryptionType, id).1.Ok?
    requires se.kdc.DomainById(id).Some? && se.kdc.KeyOf(id).Some?
    ensures var c := InitializedByKeyId(client, ce, encryptionType, id).0;
            var p := ParseSystem(InitialHeader(version, encryptionType, id).value + body);
            && p == Initial(encryptionType, Some(id), body)
            && var (s, r) := ServerAccepts(server, se, p);
            && r.Ok? && s.keyId == c.keyId && s.encryptionType == c.encryptionType
            && (EndsMirror(c, s)
                <==> ce.kdc.KeyOf(id) == se.kdc.KeyOf(id) && ce.kdc.DomainById(id) == se.kdc.DomainById(id))
  {
    HeaderCarries(version, encryptionType, id, body);
    NodeStatesMirror(client, ce, server, se, encryptionType, id);
  }

  lemma NodeStatesMirror(client: State, ce: Endpoint, server: State, se: Endpoint, encryptionType: nat, id: KeyId)
    requires NodeKey(id) && !ce.isServer && se.isServer
    requires InitializedByKeyId(client, ce, encryptionType, id).1.Ok?
    requires se.kdc.DomainById(id).Some? && se.kdc.KeyOf(id).Some?
    ensures var (c, s) := (InitializedByKeyId(client, ce, encryptionType, id).0,
                           InitializedByKeyId(server, se, encryptionType, id).0);
            EndsMirror(c, s) <==> ce.kdc.KeyOf(id) == se.kdc.KeyOf(id) && ce.kdc.DomainById(id) == se.kdc.DomainById(id)
  {
    var ck, sk := ce.kdc.KeyOf(id).value, se.kdc.KeyOf(id).value;
    var cd, sd := ce.kdc.DomainById(id).value, se.kdc.DomainById(id).value;
    NodeNamesMirror(ck, BootstrapNames(ce, id, cd).0, cd, sk, sd);
  }

  lemma NodeNamesMirror(ck: Octets, node: string, cd: string, sk: Octets, sd: string)
    ensures Mirrored(BootstrapKeys(ck, node, cd), BootstrapKeys(sk, sd, node)) <==> ck == sk && cd == sd
  {
    MirroredExactly(ck, node, cd, sk, sd, node, BOOTSTRAP_INFO);
    SameAfter(node, cd, sd);
  }

  /** A node id found by name instead does not mirror, unless the client is itself called gn:node-client. */
  lemma NodeKeyByNameMirrors(
    client: State, ce: Endpoint, server: State, se: Endpoint, encryptionType: nat, target: string)
    requires 0 < encryptionType < 16 && encryptionType != 2 && se.isServer
    requires InitializedByDomain(client, ce, encryptionType, target).1.Ok?
    requires var id := InitializedByDomain(client, ce, encryptionType, target).1.value;
             && NodeKey(id) && se.kdc.DomainById(id) == Some(target) && se.kdc.KeyOf(id) == ce.kdc.KeyOf(id)
    ensures var (c, id) := InitializedByDomain(client, ce, encryptionType, target);
            var s := InitializedByKeyId(server, se, encryptionType, id.value).0;
            EndsMirror(c, s) <==> ce.selfDomain == NODE_CLIENT
  {
    var (c, id) := InitializedByDomain(client, ce, encryptionType, target);
    var s := InitializedByKeyId(server, se, encryptionType, id.value).0;
    var k := ce.kdc.KeyOf(id.value).value;
    var node := BootstrapNames(se, id.value, target).1;
    MirroredExactly(k, ce.selfDomain, target, k, target, node, BOOTSTRAP_INFO);
    SameAfter(target, ce.selfDomain, node);
  }

  /** A client called "a" that finds a node by name and a server with the same table do not mirror. */
  lemma NodeByNameExample(client: State, server: State)
    ensures var table := KdcTable([("node", (252, 1))], map[(252, 1) := [Raw(0)]]);
            var (c, id) := InitializedByDomain(client, Endpoint("a", None, false, table), 1, "node");
            && id == Ok((252, 1))
            && var s := InitializedByKeyId(server, Endpoint("b", None, true, table), 1, id.value).0;
            !EndsMirror(c, s)
  {
    var table := KdcTable([("node", (252, 1))], map[(252, 1) := [Raw(0)]]);
    assert FirstDomain(table.domains, (252, 1)) == Some("node");
    assert FirstKeyId(table.domains, "node") == Some((252, 1));
    NodeKeyByNameMirrors(client, Endpoint("a", None, false, table), server, Endpoint("b", None, true, table), 1,
                         "node");
    assert |"a"| == 1 && |NODE_CLIENT| == 14;
  }
}
