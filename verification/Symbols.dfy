// Byte strings over a free algebra of cryptographic results.
//
// An octet is a literal byte, or one octet of the output of a primitive. Every
// primitive is a constructor, so outputs collide only when their inputs are
// equal; the algebraic laws of X25519 (section 6.1 of RFC 7748), ML-KEM and
// ML-DSA are proved below from the definitions, and none is assumed.
module Symbols {
  import opened Bytes
  import Utf8

  datatype Octet =
    | Raw(value: Byte)
    | Out(term: Term, index: nat)

  type Octets = seq<Octet>

  datatype Term =
    | Hkdf(secret: Octets, salt: Octets, info: string, length: nat)
    | Sha3(input: Octets)
    | CurvePoint(scalar: nat)
    | CurveShared(low: nat, high: nat)
    | CurveOther(scalar: nat, point: Octets)
    | KemPublic(seed: nat)
    | KemCiphertext(publicKey: Octets, coins: nat)
    | KemSecret(publicKey: Octets, coins: nat)
    | KemRejected(seed: nat, ciphertext: Octets)
    | SignPublic(seed: nat)
    | Signature(seed: nat, message: Octets)

  /** The octets of an output of the given length. */
  function Expand(t: Term, length: nat): (s: Octets)
    ensures |s| == length
    ensures forall i :: 0 <= i < length ==> s[i] == Out(t, i)
  {
    seq(length, i requires 0 <= i < length => Out(t, i))
  }

  lemma ExpandInjective(a: Term, b: Term, length: nat)
    requires length > 0
    requires Expand(a, length) == Expand(b, length)
    ensures a == b
  {
    assert Expand(a, length)[0] == Out(a, 0);
    assert Expand(b, length)[0] == Out(b, 0);
  }

  /** Literal bytes as octets. */
  function Raws(s: seq<Byte>): (r: Octets)
    ensures |r| == |s|
    ensures forall i :: 0 <= i < |s| ==> r[i] == Raw(s[i])
  {
    seq(|s|, i requires 0 <= i < |s| => Raw(s[i]))
  }

  lemma RawsInjective(a: seq<Byte>, b: seq<Byte>)
    requires Raws(a) == Raws(b)
    ensures a == b
  {
    assert |a| == |b|;
    forall i | 0 <= i < |a| ensures a[i] == b[i] {
      assert Raws(a)[i] == Raw(a[i]) && Raws(b)[i] == Raw(b[i]);
    }
  }

  /** A text as the octets of its UTF-8 encoding. */
  function Text(s: string): Octets {
    Raws(Utf8.Encode(s))
  }

  lemma TextConcat(a: string, b: string)
    ensures Text(a + b) == Text(a) + Text(b)
  {
    Utf8.EncodeConcat(a, b);
  }

  lemma TextInjective(a: string, b: string)
    requires Text(a) == Text(b)
    ensures a == b
  {
    RawsInjective(Utf8.Encode(a), Utf8.Encode(b));
    Utf8.EncodeInjective(a, b);
  }

  // ----- hashes -----

  function HkdfSha3(secret: Octets, length: nat, salt: Octets, info: string): (s: Octets)
    ensures |s| == length
  {
    Expand(Hkdf(secret, salt, info, length), length)
  }

  function Sha3_512(input: Octets): (s: Octets)
    ensures |s| == 64
  {
    Expand(Sha3(input), 64)
  }

  lemma HkdfInjective(s1: Octets, salt1: Octets, info1: string, s2: Octets, salt2: Octets, info2: string, length: nat)
    requires length > 0
    requires HkdfSha3(s1, length, salt1, info1) == HkdfSha3(s2, length, salt2, info2)
    ensures s1 == s2 && salt1 == salt2 && info1 == info2
  {
    ExpandInjective(Hkdf(s1, salt1, info1, length), Hkdf(s2, salt2, info2, length), length);
  }

  // ----- X25519 -----

  function XPublic(scalar: nat): (s: Octets)
    ensures |s| == 32
  {
    Expand(CurvePoint(scalar), 32)
  }

  function XExchange(scalar: nat, point: Octets): (s: Octets)
    ensures |s| == 32
  {
    if |point| == 32 && point[0].Out? && point[0].term.CurvePoint? && point == XPublic(point[0].term.scalar) then
      var other := point[0].term.scalar;
      if scalar <= other then Expand(CurveShared(scalar, other), 32) else Expand(CurveShared(other, scalar), 32)
    else
      Expand(CurveOther(scalar, point), 32)
  }

  lemma ExchangeCommutes(a: nat, b: nat)
    ensures XExchange(a, XPublic(b)) == XExchange(b, XPublic(a))
  {
    assert XPublic(b)[0] == Out(CurvePoint(b), 0);
    assert XPublic(a)[0] == Out(CurvePoint(a), 0);
  }

  // ----- ML-KEM-1024 -----

  function KemPublicKey(seed: nat): (s: Octets)
    ensures |s| == 1568
  {
    Expand(KemPublic(seed), 1568)
  }

  /** The ciphertext and the shared secret. */
  function Encapsulate(publicKey: Octets, coins: nat): (r: (Octets, Octets))
    ensures |r.0| == 1568 && |r.1| == 32
  {
    (Expand(KemCiphertext(publicKey, coins), 1568), Expand(KemSecret(publicKey, coins), 32))
  }

  /** A ciphertext made for another key yields an unrelated secret, as implicit rejection does. */
  function Decapsulate(seed: nat, ciphertext: Octets): (s: Octets)
    ensures |s| == 32
  {
    if |ciphertext| == 1568 && ciphertext[0].Out? && ciphertext[0].term.KemCiphertext?
       && ciphertext[0].term.publicKey == KemPublicKey(seed)
       && ciphertext == Expand(ciphertext[0].term, 1568)
    then
      Expand(KemSecret(ciphertext[0].term.publicKey, ciphertext[0].term.coins), 32)
    else
      Expand(KemRejected(seed, ciphertext), 32)
  }

  lemma DecapsulateEncapsulated(seed: nat, coins: nat)
    ensures var (ciphertext, secret) := Encapsulate(KemPublicKey(seed), coins);
            Decapsulate(seed, ciphertext) == secret
  {
    var ciphertext := Encapsulate(KemPublicKey(seed), coins).0;
    assert ciphertext[0] == Out(KemCiphertext(KemPublicKey(seed), coins), 0);
  }

  // ----- ML-DSA-87 -----

  function SignPublicKey(seed: nat): (s: Octets)
    ensures |s| == 2592
  {
    Expand(SignPublic(seed), 2592)
  }

  function Sign(seed: nat, message: Octets): (s: Octets)
    ensures |s| == 4627
  {
    Expand(Signature(seed, message), 4627)
  }

  predicate Verify(message: Octets, signature: Octets, publicKey: Octets) {
    && |publicKey| == 2592 && publicKey[0].Out? && publicKey[0].term.SignPublic?
    && publicKey == SignPublicKey(publicKey[0].term.seed)
    && signature == Sign(publicKey[0].term.seed, message)
  }

  /** A signature verifies under its own key only, and for the signed message only. */
  lemma VerifySigned(seed: nat, message: Octets, key: Octets, other: Octets)
    ensures Verify(other, Sign(seed, message), key) <==> key == SignPublicKey(seed) && other == message
  {
    assert SignPublicKey(seed)[0] == Out(SignPublic(seed), 0);
    if Verify(other, Sign(seed, message), key) {
      ExpandInjective(Signature(key[0].term.seed, other), Signature(seed, message), 4627);
    }
  }

  // ----- secrets are told apart -----

  /** Two exchanges with honest points give one secret exactly when the same two scalars take part. */
  lemma ExchangeDetermines(a: nat, b: nat, c: nat, d: nat)
    ensures XExchange(a, XPublic(b)) == XExchange(c, XPublic(d)) <==> (a == c && b == d) || (a == d && b == c)
  {
    assert XPublic(b)[0] == Out(CurvePoint(b), 0) && XPublic(d)[0] == Out(CurvePoint(d), 0);
    var x := if a <= b then CurveShared(a, b) else CurveShared(b, a);
    var y := if c <= d then CurveShared(c, d) else CurveShared(d, c);
    if XExchange(a, XPublic(b)) == XExchange(c, XPublic(d)) {
      ExpandInjective(x, y, 32);
    }
  }

  /** A point that nobody made shares no secret with an honest exchange. */
  lemma ForeignPointSeparate(a: nat, point: Octets, c: nat, d: nat)
    requires forall scalar: nat :: point != XPublic(scalar)
    ensures XExchange(a, point) != XExchange(c, XPublic(d))
  {
    assert XPublic(d)[0] == Out(CurvePoint(d), 0);
    assert XExchange(a, point)[0] == Out(CurveOther(a, point), 0);
  }

  /** The encapsulated secret comes out with the seed of the key it was made for, and with no other. */
  lemma DecapsulatesExactly(seed: nat, other: nat, coins: nat)
    ensures Decapsulate(other, Encapsulate(KemPublicKey(seed), coins).0) == Encapsulate(KemPublicKey(seed), coins).1
            <==> other == seed
  {
    var (ciphertext, secret) := Encapsulate(KemPublicKey(seed), coins);
    DecapsulateEncapsulated(seed, coins);
    assert ciphertext[0] == Out(KemCiphertext(KemPublicKey(seed), coins), 0);
    assert secret[0] == Out(KemSecret(KemPublicKey(seed), coins), 0);
    assert KemPublicKey(seed)[0] == Out(KemPublic(seed), 0) && KemPublicKey(other)[0] == Out(KemPublic(other), 0);
  }

  /** Two encapsulations give one secret, or one ciphertext, exactly when key and coins are the same. */
  lemma EncapsulationDetermines(key1: Octets, coins1: nat, key2: Octets, coins2: nat)
    ensures Encapsulate(key1, coins1).1 == Encapsulate(key2, coins2).1 <==> key1 == key2 && coins1 == coins2
    ensures Encapsulate(key1, coins1).0 == Encapsulate(key2, coins2).0 <==> key1 == key2 && coins1 == coins2
  {
    if Encapsulate(key1, coins1).1 == Encapsulate(key2, coins2).1 {
      ExpandInjective(KemSecret(key1, coins1), KemSecret(key2, coins2), 32);
    }
    if Encapsulate(key1, coins1).0 == Encapsulate(key2, coins2).0 {
      ExpandInjective(KemCiphertext(key1, coins1), KemCiphertext(key2, coins2), 1568);
    }
  }

  /** A ciphertext that nobody made for the key shares no secret with an encapsulation. */
  lemma ForeignCiphertextSeparate(seed: nat, ciphertext: Octets, key: Octets, coins: nat)
    requires forall n: nat :: ciphertext != Encapsulate(KemPublicKey(seed), n).0
    ensures Decapsulate(seed, ciphertext) != Encapsulate(key, coins).1
  {
    assert Encapsulate(key, coins).1[0] == Out(KemSecret(key, coins), 0);
    if |ciphertext| == 1568 && ciphertext[0].Out? && ciphertext[0].term.KemCiphertext?
       && ciphertext[0].term.publicKey == KemPublicKey(seed)
    {
      assert ciphertext != Encapsulate(KemPublicKey(seed), ciphertext[0].term.coins).0;
    }
    assert Decapsulate(seed, ciphertext)[0] == Out(KemRejected(seed, ciphertext), 0);
  }
}
