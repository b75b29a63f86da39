// The certificate of a configured identity, read from the program's configuration.
module Configuration {
  import opened Prelude
  import opened Symbols
  import opened Certificate
  import Utf8

  /** What reading a configuration depends on: the text decoder, and the mechanisms and sizes of liboqs. */
  datatype Setup = Setup(
    friendly: string -> Option<Octets>,
    enabled: string -> bool,
    keyLength: string -> nat,
    signatureLength: nat)

  /** No mechanism has public keys of length zero. */
  ghost predicate Sized(e: Setup) {
    forall algorithm: string :: e.keyLength(algorithm) > 0
  }

  /** Octets as they are, text through the decoder or else as UTF-8. */
  function FriendlyOctets(e: Setup, v: Value): Option<Octets> {
    match v
    case VBytes(o) => Some(o)
    case VStr(s) => Some(if e.friendly(s).Some? then e.friendly(s).value else Text(s))
    case _ => None
  }

  function Padding(n: nat): (s: Octets)
    ensures |s| == n
  {
    seq(n, i => Raw(0))
  }

  /** Octets of exactly the length; decoded text that is too short is padded on the left. */
  function FixedOctets(e: Setup, v: Value, length: nat): (r: Option<Octets>)
    ensures r.Some? ==> |r.value| == length
    ensures r.Some? && v.VBytes? ==> r.value == v.o
  {
    var data := FriendlyOctets(e, v);
    if data.None? || |data.value| > length then None
    else if |data.value| == length then data
    else if v.VStr? then Some(Padding(length - |data.value|) + data.value)
    else None
  }

  /** Octets must have the length; a text stands for what it decodes to, or else for its UTF-8 encoding, and is filled
      up with zeros in front; nothing longer is taken. */
  lemma FixedExactly(e: Setup, v: Value, length: nat)
    ensures v.VBytes? ==> FixedOctets(e, v, length) == if |v.o| == length then Some(v.o) else None
    ensures v.VStr? ==>
              var text := if e.friendly(v.s).Some? then e.friendly(v.s).value else Text(v.s);
              var r := FixedOctets(e, v, length);
              && (r.Some? <==> |text| <= length)
              && (r.Some? ==>
                    && |r.value| == length && r.value[length - |text|..] == text
                    && forall i :: 0 <= i < length - |text| ==> r.value[i] == Raw(0))
    ensures !v.VBytes? && !v.VStr? ==> FixedOctets(e, v, length) == None
  {
  }

  /** One entry of the algorithms: its normalized name and its key. */
  function ReadKey(e: Setup, name: string, v: Value): (r: Option<(string, Octets)>)
    ensures r.Some? ==> name != "" && PubOf(v).Some? && r.value.0 == Normalize(name)
                        && |r.value.1| == e.keyLength(Normalize(name))
    ensures r.Some? && PubOf(v).value.VBytes? ==> r.value.1 == PubOf(v).value.o
  {
    if name == "" || PubOf(v).None? || !e.enabled(Normalize(name)) then None
    else
      var octets := FixedOctets(e, PubOf(v).value, e.keyLength(Normalize(name)));
      if octets.None? then None else Some((Normalize(name), octets.value))
  }

  /** An entry is read exactly when it has a name, a dictionary with a public key of the size of its mechanism, and
      liboqs offers the mechanism. */
  lemma ReadsExactly(e: Setup, name: string, v: Value)
    ensures var mechanism := Normalize(name);
            ReadKey(e, name, v).Some?
            <==> && name != "" && v.VDict? && Get(v.entries, "pub").Some? && e.enabled(mechanism)
                 && FixedOctets(e, Get(v.entries, "pub").value, e.keyLength(mechanism)).Some?
    ensures ReadKey(e, name, v).Some? ==>
              ReadKey(e, name, v).value
              == (Normalize(name), FixedOctets(e, Get(v.entries, "pub").value, e.keyLength(Normalize(name))).value)
  {
  }

  /** The keys under their normalized names, entered in order. */
  function ConfiguredKeys(e: Setup, seen: KeyTable, algs: Dict): Option<KeyTable>
    decreases |algs|
  {
    if algs == [] then Some(seen)
    else
      var one := ReadKey(e, algs[0].0, algs[0].1);
      if one.None? then None else ConfiguredKeys(e, Put(seen, one.value.0, one.value.1), algs[1..])
  }

  method ParsePublicKeys(e: Setup, algs: Dict) returns (r: Option<KeyTable>)
    ensures r == ConfiguredKeys(e, [], algs)
  {
    var keys: KeyTable := [];
    var i := 0;
    assert algs[0..] == algs;
    while i < |algs|
      invariant 0 <= i <= |algs|
      invariant ConfiguredKeys(e, [], algs) == ConfiguredKeys(e, keys, algs[i..])
    {
      assert algs[i..][1..] == algs[i + 1..];
      var one := ReadKey(e, algs[i].0, algs[i].1);
      if one.None? {
        return None;
      }
      keys := Put(keys, one.value.0, one.value.1);
      i := i + 1;
    }
    return Some(keys);
  }

  /** The certificate of a configured dictionary and signature. */
  function ReadCertificate(e: Setup, data: Dict, sign: Value): Result<Cert> {
    var c, v, name, exp := Get(data, "c"), Get(data, "c_v"), Get(data, "domain"), Get(data, "exp");
    if c.None? || !c.value.VStr? || c.value.s == "" then Err("data.c")
    else if v.None? || AsInt(v.value).None? || AsInt(v.value).value < 0 then Err("data.c_v")
    else if name.None? || !name.value.VStr? || name.value.s == "" then Err("data.domain")
    else if exp.None? || !exp.value.VTime? then Err("data.exp")
    else if AlgsOf(data) == [] then Err("data.algs")
    else
      var keys, signature := ConfiguredKeys(e, [], AlgsOf(data)), FixedOctets(e, sign, e.signatureLength);
      if keys.None? || signature.None? then Err("key or signature")
      else Make(c.value.s, AsInt(v.value).value, name.value.s, keys.value, exp.value.t, signature.value, Some(data))
  }

  /** The certificate of a configuration; it keeps the configured dictionary as its source. */
  function ParseCertificate(e: Setup, container: Dict): Result<Cert> {
    var crt, sign := Get(container, "data"), Get(container, "sign");
    if crt.None? || !crt.value.VDict? then Err("data must be a dict")
    else if sign.None? then Err("sign is required")
    else ReadCertificate(e, crt.value.entries, sign.value)
  }

  /** A certificate that some configuration yields. */
  ghost predicate Configured(e: Setup, c: Cert) {
    exists container: Dict :: ParseCertificate(e, container) == Ok(c)
  }

  // ----- what a configuration yields, and what a receiver makes of it -----

  lemma {:induction false} ConfiguredShape(e: Setup, seen: KeyTable, algs: Dict)
    requires ConfiguredKeys(e, seen, algs).Some?
    ensures NamedAlgorithms(algs)
    ensures Sized(e) && Canonical(seen) ==> Canonical(ConfiguredKeys(e, seen, algs).value)
    decreases |algs|
  {
    if algs != [] {
      var one := ReadKey(e, algs[0].0, algs[0].1).value;
      NormalizeTwice(algs[0].0);
      if Sized(e) && Canonical(seen) {
        assert |one.1| > 0;
        PutCanonical(seen, one.0, one.1);
      }
      ConfiguredShape(e, Put(seen, one.0, one.1), algs[1..]);
      assert forall i :: 0 < i < |algs| ==> algs[i] == algs[1..][i - 1];
    }
  }

  /** With keys held as octets the receiver enters the same keys under the same names. */
  lemma {:induction false} SameKeysRead(e: Setup, seen: KeyTable, algs: Dict)
    requires Sized(e) && OctetKeys(algs) && ConfiguredKeys(e, seen, algs).Some?
    ensures LoadKeys(algs).Some? && Normalized(seen, LoadKeys(algs).value) == ConfiguredKeys(e, seen, algs)
    decreases |algs|
  {
    if algs != [] {
      var one := ReadKey(e, algs[0].0, algs[0].1).value;
      assert forall i :: 0 < i < |algs| ==> algs[i] == algs[1..][i - 1];
      SameKeysRead(e, Put(seen, one.0, one.1), algs[1..]);
      var rest := LoadKeys(algs[1..]).value;
      var head := (algs[0].0, PubOf(algs[0].1).value.o);
      assert LoadKeys(algs) == Some([head] + rest);
      assert ([head] + rest)[1..] == rest;
      assert |one.1| > 0;
    }
  }

  lemma ConfiguredFields(e: Setup, container: Dict)
    requires Sized(e) && ParseCertificate(e, container).Ok?
    ensures var c := ParseCertificate(e, container).value;
            && c.sourceData.Some? && Describes(c.sourceData.value, c)
            && ConfiguredKeys(e, [], AlgsOf(c.sourceData.value)) == Some(c.publicKeys) && c.publicKeys != []
  {
    var c := ParseCertificate(e, container).value;
    var algs := AlgsOf(c.sourceData.value);
    ConfiguredShape(e, [], algs);
    var keys := ConfiguredKeys(e, [], algs).value;
    assert [] + keys == keys;
    CanonicalStays([], keys);
  }

  /** A configured certificate can be read by its receivers exactly when every key in its dictionary is octets;
      otherwise every receiver refuses it, although the configuration was accepted. */
  lemma ConfiguredReadableExactly(e: Setup, s: Serializer, c: Cert)
    requires Sized(e) && Lawful(s) && Configured(e, c)
    ensures c.sourceData.Some?
    ensures OctetKeys(AlgsOf(c.sourceData.value)) <==> WellFormed(c)
    ensures OctetKeys(AlgsOf(c.sourceData.value)) <==> FromBytes(s, ToBytes(s, c)).Ok?
  {
    var container: Dict :| ParseCertificate(e, container) == Ok(c);
    ConfiguredFields(e, container);
    var algs := AlgsOf(c.sourceData.value);
    if OctetKeys(algs) {
      SameKeysRead(e, [], algs);
      BytesRoundTrip(s, c);
    } else {
      TextualKeysRefused(s, c);
    }
  }

  /** A configuration of the given fields. */
  function Container(center: string, version: int, name: string, algs: Dict, exp: DateTime, sign: Value): Dict {
    [("data", VDict(Described(center, version, name, algs, exp))), ("sign", sign)]
  }

  function Described(center: string, version: int, name: string, algs: Dict, exp: DateTime): Dict {
    [("c", VStr(center)), ("c_v", VInt(version)), ("domain", VStr(name)), ("algs", VDict(algs)), ("exp", VTime(exp))]
  }

  /** A configuration that is accepted, with one key given as text. */
  function TextualConfiguration(): Dict {
    Container("center", 1, "name", [("ml-dsa-87", VDict([("pub", VStr("key"))]))], Naive(0), VStr("sign"))
  }

  lemma NormalName()
    ensures Normalize("ml-dsa-87") == "ml-dsa-87"
  {
    assert Casefold("ml-dsa-87") == "ml-dsa-87";
    assert |"dilithium2"| == 10 && |"dilithium3"| == 10 && |"dilithium5"| == 10 && |"ml-dsa-87"| == 9;
  }

  lemma TextFits(e: Setup, s: string, length: nat)
    requires e.friendly(s).None? && 4 * |s| <= length
    ensures FixedOctets(e, VStr(s), length).Some?
  {
    Utf8.EncodedLength(s);
  }

  lemma ContainerFields(center: string, version: int, name: string, algs: Dict, exp: DateTime, sign: Value)
    ensures var container := Container(center, version, name, algs, exp, sign);
            var data := Described(center, version, name, algs, exp);
            && Get(container, "data") == Some(VDict(data)) && Get(container, "sign") == Some(sign)
            && Get(data, "c") == Some(VStr(center)) && Get(data, "c_v") == Some(VInt(version))
            && Get(data, "domain") == Some(VStr(name)) && Get(data, "exp") == Some(VTime(exp)) && AlgsOf(data) == algs
  {
    var container := Container(center, version, name, algs, exp, sign);
    assert "data" != "sign" by { assert "data"[0] != "sign"[0]; }
    GetAt(container, "data", 0);
    GetAt(container, "sign", 1);
    var data := container[0].1.entries;
    assert |"c"| == 1 && |"c_v"| == 3 && |"domain"| == 6 && |"algs"| == 4 && |"exp"| == 3;
    assert "c_v"[0] == 'c' && "exp"[0] == 'e';
    GetAt(data, "c", 0);
    GetAt(data, "c_v", 1);
    GetAt(data, "domain", 2);
    GetAt(data, "algs", 3);
    GetAt(data, "exp", 4);
  }

  lemma OneTextualKey(e: Setup, name: string, v: Value, text: string)
    requires name != "" && Normalize(name) == name && PubOf(v) == Some(VStr(text))
    requires e.enabled(name) && e.friendly(text).None? && 4 * |text| <= e.keyLength(name)
    ensures var keys := ConfiguredKeys(e, [], [(name, v)]);
            keys.Some? && keys.value != [] && !OctetKeys([(name, v)])
  {
    TextFits(e, text, e.keyLength(name));
    var one := ReadKey(e, name, v);
    assert [(name, v)][1..] == [];
    assert ConfiguredKeys(e, [], [(name, v)]) == Some(Put([], one.value.0, one.value.1));
    assert [(name, v)][0].1 == v;
  }

  lemma ReadsAs(
    e: Setup, data: Dict, center: string, version: int, name: string, exp: DateTime, sign: Value,
    keys: KeyTable, signature: Octets)
    requires center != "" && version >= 0 && name != "" && AlgsOf(data) != []
    requires Get(data, "c") == Some(VStr(center)) && Get(data, "c_v") == Some(VInt(version))
    requires Get(data, "domain") == Some(VStr(name)) && Get(data, "exp") == Some(VTime(exp))
    requires ConfiguredKeys(e, [], AlgsOf(data)) == Some(keys)
             && FixedOctets(e, sign, e.signatureLength) == Some(signature)
    ensures ReadCertificate(e, data, sign) == Make(center, version, name, keys, exp, signature, Some(data))
  {
  }

  /** Fields that are present, readable keys and a signature of the right size make a certificate. */
  lemma ContainerParses(
    e: Setup, center: string, version: int, name: string, algs: Dict, exp: DateTime, sign: Value, keys: KeyTable,
    signature: Octets)
    requires Sized(e) && center != "" && version >= 0 && name != "" && algs != []
    requires ConfiguredKeys(e, [], algs) == Some(keys) && keys != []
    requires FixedOctets(e, sign, e.signatureLength) == Some(signature)
    ensures ParseCertificate(e, Container(center, version, name, algs, exp, sign))
            == Ok(Cert(center, version, name, keys, Utc(exp), signature,
                       Some(Described(center, version, name, algs, exp))))
  {
    var container := Container(center, version, name, algs, exp, sign);
    var data := Described(center, version, name, algs, exp);
    ContainerFields(center, version, name, algs, exp, sign);
    ReadsAs(e, data, center, version, name, exp, sign, keys, signature);
    assert ParseCertificate(e, container) == ReadCertificate(e, data, sign);
    ConfiguredShape(e, [], algs);
    assert [] + keys == keys;
    CanonicalStays([], keys);
  }

  /** It is accepted, and no receiver can read the certificate. */
  lemma TextualKeyExample(e: Setup, s: Serializer)
    requires Sized(e) && Lawful(s)
    requires e.enabled("ml-dsa-87") && e.friendly("key").None? && e.friendly("sign").None?
    requires e.keyLength("ml-dsa-87") >= 12 && e.signatureLength >= 16
    ensures var r := ParseCertificate(e, TextualConfiguration());
            r.Ok? && FromBytes(s, ToBytes(s, r.value)).Err?
  {
    NormalName();
    var v := VDict([("pub", VStr("key"))]);
    assert PubOf(v) == Some(VStr("key"));
    assert |"key"| == 3 && |"sign"| == 4 && |"ml-dsa-87"| == 9 && |"center"| == 6 && |"name"| == 4;
    OneTextualKey(e, "ml-dsa-87", v, "key");
    TextFits(e, "sign", e.signatureLength);
    var algs := [("ml-dsa-87", v)];
    ContainerFields("center", 1, "name", algs, Naive(0), VStr("sign"));
    ContainerParses(e, "center", 1, "name", algs, Naive(0), VStr("sign"), ConfiguredKeys(e, [], algs).value,
                    FixedOctets(e, VStr("sign"), e.signatureLength).value);
    TextualKeysRefused(s, ParseCertificate(e, TextualConfiguration()).value);
  }

  /** The key read last for a mechanism, under any spelling of its name. */
  function LastRead(e: Setup, algs: Dict, mechanism: string): Option<Octets> {
    if algs == [] then None
    else
      var later := LastRead(e, algs[1..], mechanism);
      if later.Some? then later
      else if Normalize(algs[0].0) == mechanism && ReadKey(e, algs[0].0, algs[0].1).Some? then
        Some(ReadKey(e, algs[0].0, algs[0].1).value.1)
      else None
  }

  /** The configured algorithms are accepted exactly when each entry can be read; each mechanism then has its last key.
      */
  lemma {:induction false} ConfiguresExactly(e: Setup, seen: KeyTable, algs: Dict, mechanism: string)
    ensures ConfiguredKeys(e, seen, algs).Some?
            <==> forall i :: 0 <= i < |algs| ==> ReadKey(e, algs[i].0, algs[i].1).Some?
    ensures ConfiguredKeys(e, seen, algs).Some? ==>
              KeyFor(ConfiguredKeys(e, seen, algs).value, mechanism)
              == if LastRead(e, algs, mechanism).Some? then LastRead(e, algs, mechanism) else KeyFor(seen, mechanism)
    decreases |algs|
  {
    if algs != [] {
      var one := ReadKey(e, algs[0].0, algs[0].1);
      assert forall i :: 0 < i < |algs| ==> algs[i] == algs[1..][i - 1];
      assert forall i :: 0 <= i < |algs[1..]| ==> algs[1..][i] == algs[i + 1];
      if one.Some? {
        ConfiguresExactly(e, Put(seen, one.value.0, one.value.1), algs[1..], mechanism);
        PutGives(seen, one.value.0, one.value.1, mechanism);
      }
    }
  }
}
