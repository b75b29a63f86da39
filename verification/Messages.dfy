// Handshake messages and their encodings, and what is hashed of them.
module Messages {
  import opened Prelude
  import opened Bytes
  import Utf8
  import opened Symbols
  import Certificate

  type Cert = Certificate.Cert
  type Serializer = Certificate.Serializer

  const NONCE_LEN := 32
  const X25519_LEN := 32
  const MAX_BLOB := 0xFFFF

  // ----- length-prefixed fields -----

  /** An octet read as a number; the output of a primitive has no value of its own and counts as zero. */
  function Number(o: Octet): Byte {
    if o.Raw? then o.value else 0
  }

  function EncodeLength(n: nat): (s: Octets)
    requires n <= MAX_BLOB
    ensures |s| == 2
  {
    [Raw(n / 256), Raw(n % 256)]
  }

  function EncodeBlob(value: Octets): (r: Result<Octets>)
    ensures r.Ok? <==> |value| <= MAX_BLOB
    ensures r.Ok? ==> |r.value| == |value| + 2
  {
    if |value| > MAX_BLOB then Err("Blob is too large to encode") else Ok(EncodeLength(|value|) + value)
  }

  /** Two octets of length, high one first, and then the value. */
  lemma BlobLayout(value: Octets)
    requires |value| <= MAX_BLOB
    ensures var s := EncodeBlob(value).value;
            && s[0].Raw? && s[1].Raw? && s[0].value * 256 + s[1].value == |value| && s[2..] == value
  {
  }

  /** The blob at the offset, and the offset behind it. */
  function DecodeBlob(data: Octets, offset: nat): (r: Result<(Octets, nat)>)
    ensures r.Ok? ==> offset + 2 <= r.value.1 <= |data| && r.value.0 == data[offset + 2..r.value.1]
  {
    if offset + 2 > |data| then Err("Malformed blob length")
    else
      var end := offset + 2 + Number(data[offset]) * 256 + Number(data[offset + 1]);
      if end > |data| then Err("Malformed blob body") else Ok((data[offset + 2..end], end))
  }

  /** Text is decoded from literal octets; an octet of a primitive's output is no text. */
  function AsText(s: Octets): Option<string> {
    if exists i :: 0 <= i < |s| && !s[i].Raw? then None
    else Utf8.Decode(seq(|s|, i requires 0 <= i < |s| => Number(s[i])))
  }

  function DecodeText(data: Octets, offset: nat): (r: Result<(string, nat)>)
    ensures r.Ok? ==> offset + 2 <= r.value.1 <= |data|
  {
    var (value, end) :- DecodeBlob(data, offset);
    var text := AsText(value);
    if text.None? then Err("UnicodeDecodeError") else Ok((text.value, end))
  }

  /** Octets are read as a text exactly when they are its encoding. */
  lemma AsTextExactly(data: Octets, s: string)
    ensures AsText(data) == Some(s) <==> data == Text(s)
  {
    AsTextOfText(s);
    if AsText(data) == Some(s) {
      var numbers := seq(|data|, i requires 0 <= i < |data| => Number(data[i]));
      assert Utf8.Encode(s) == numbers;
      assert data == Text(s);
    }
  }

  lemma AsTextOfText(s: string)
    ensures AsText(Text(s)) == Some(s)
  {
    var raw := Text(s);
    var back := seq(|raw|, i requires 0 <= i < |raw| => Number(raw[i]));
    assert back == Utf8.Encode(s);
    Utf8.DecodeEncoded(s);
  }

  /** A blob in the middle of a message is read back, with the offset behind it. */
  lemma BlobInContext(before: Octets, value: Octets, after: Octets)
    requires |value| <= MAX_BLOB
    ensures DecodeBlob(before + EncodeBlob(value).value + after, |before|) == Ok((value, |before| + 2 + |value|))
  {
    var data := before + EncodeBlob(value).value + after;
    assert data[|before|] == Raw(|value| / 256) && data[|before| + 1] == Raw(|value| % 256);
    assert data[|before| + 2..|before| + 2 + |value|] == value;
  }

  // ----- messages -----

  datatype ClientHello = ClientHello(nonce: Octets, point: Octets)
  datatype ServerHello = ServerHello(
    nonce: Octets, point: Octets, kemKey: Octets, algorithm: string, certificate: Cert, signature: Octets)
  datatype ClientFinish = ClientFinish(ciphertext: Octets)
  datatype Commit = Commit(transcript: Octets, tag: Octets)

  predicate ClientHelloOk(m: ClientHello) {
    |m.nonce| == NONCE_LEN && |m.point| == X25519_LEN
  }

  predicate ServerHelloOk(m: ServerHello) {
    |m.nonce| == NONCE_LEN && |m.point| == X25519_LEN && m.kemKey != [] && m.algorithm != ""
  }

  predicate CommitOk(m: Commit) {
    |m.transcript| == 64 && |m.tag| == 32
  }

  function ClientHelloBytes(m: ClientHello): Octets {
    m.nonce + m.point
  }

  function ParseClientHello(data: Octets): Result<ClientHello> {
    if |data| != NONCE_LEN + X25519_LEN then Err("ClientHello payload is too short")
    else Ok(ClientHello(data[..NONCE_LEN], data[NONCE_LEN..]))
  }

  function ServerHelloUnsigned(s: Serializer, m: ServerHello): Result<Octets> {
    var kem :- EncodeBlob(m.kemKey);
    var algorithm :- EncodeBlob(Text(m.algorithm));
    var certificate :- EncodeBlob(Certificate.ToBytes(s, m.certificate));
    Ok(m.nonce + m.point + kem + algorithm + certificate)
  }

  function ServerHelloBytes(s: Serializer, m: ServerHello): Result<Octets> {
    var unsigned :- ServerHelloUnsigned(s, m);
    var signature :- EncodeBlob(m.signature);
    Ok(unsigned + signature)
  }

  /** The three fields between the key share and the signature, and the offset behind them. */
  function HelloFields(data: Octets, offset: nat): (r: Result<(Octets, string, Octets, nat)>)
    ensures r.Ok? ==> r.value.3 <= |data|
  {
    var (kemKey, o1) :- DecodeBlob(data, offset);
    var (algorithm, o2) :- DecodeText(data, o1);
    var (certificate, o3) :- DecodeBlob(data, o2);
    Ok((kemKey, algorithm, certificate, o3))
  }

  function ParseServerHello(s: Serializer, data: Octets): Result<ServerHello> {
    if |data| < 72 then Err("ServerHello payload is too short")
    else
      var (kemKey, algorithm, certificateBytes, o3) :- HelloFields(data, 64);
      var certificate :- Certificate.FromBytes(s, certificateBytes);
      var (signature, o4) :- DecodeBlob(data, o3);
      var m := ServerHello(data[..32], data[32..64], kemKey, algorithm, certificate, signature);
      if o4 != |data| then Err("Unexpected trailing bytes in ServerHello payload")
      else if !ServerHelloOk(m) then Err("field check") else Ok(m)
  }

  method ReadHelloFields(data: Octets, start: nat) returns (r: Result<(Octets, string, Octets, nat)>)
    ensures r == HelloFields(data, start)
  {
    var offset := start;
    var d1 := DecodeBlob(data, offset);
    if d1.Err? { return Err(d1.reason); }
    var kemKey := d1.value.0;
    offset := d1.value.1;
    var d2 := DecodeText(data, offset);
    if d2.Err? { return Err(d2.reason); }
    var algorithm := d2.value.0;
    offset := d2.value.1;
    var d3 := DecodeBlob(data, offset);
    if d3.Err? { return Err(d3.reason); }
    var certificate := d3.value.0;
    offset := d3.value.1;
    return Ok((kemKey, algorithm, certificate, offset));
  }

  /** The decoder as written, with its moving offset. */
  method ServerHelloFromBytes(s: Serializer, data: Octets) returns (r: Result<ServerHello>)
    ensures r == ParseServerHello(s, data)
  {
    if |data| < NONCE_LEN + X25519_LEN + 2 + 2 + 2 + 2 {
      return Err("ServerHello payload is too short");
    }
    var offset := 0;
    var nonce := data[offset..offset + NONCE_LEN];
    offset := offset + NONCE_LEN;
    var point := data[offset..offset + X25519_LEN];
    offset := offset + X25519_LEN;
    assert nonce == data[..32] && point == data[32..64] && offset == 64;
    var fields := ReadHelloFields(data, offset);
    if fields.Err? { return Err(fields.reason); }
    var (kemKey, algorithm, certificateBytes, next) := fields.value;
    offset := next;
    var certificate := Certificate.FromBytes(s, certificateBytes);
    if certificate.Err? { return Err(certificate.reason); }
    var last := DecodeBlob(data, offset);
    if last.Err? { return Err(last.reason); }
    var signature := last.value.0;
    offset := last.value.1;
    if offset != |data| {
      return Err("Unexpected trailing bytes in ServerHello payload");
    }
    var m := ServerHello(nonce, point, kemKey, algorithm, certificate.value, signature);
    return if ServerHelloOk(m) then Ok(m) else Err("field check");
  }

  function ClientFinishBytes(m: ClientFinish): Result<Octets> {
    EncodeBlob(m.ciphertext)
  }

  function ParseClientFinish(data: Octets): Result<ClientFinish> {
    var (ciphertext, end) :- DecodeBlob(data, 0);
    if end != |data| then Err("Unexpected trailing bytes in ClientFinish payload")
    else if ciphertext == [] then Err("ml_kem_ciphertext must not be empty")
    else Ok(ClientFinish(ciphertext))
  }

  function CommitBytes(m: Commit): Octets {
    m.transcript + m.tag
  }

  function ParseCommit(data: Octets): Result<Commit> {
    if |data| != 96 then Err("Commit payload has invalid length")
    else Ok(Commit(data[..64], data[64..]))
  }

  // ----- round trips -----

  /** Parsing accepts exactly the encodings of well-formed messages, and gives the message back. */
  lemma ClientHelloRoundTrip(m: ClientHello, data: Octets)
    requires ClientHelloOk(m)
    ensures ParseClientHello(data) == Ok(m) <==> data == ClientHelloBytes(m)
  {
    var e := ClientHelloBytes(m);
    assert e[..32] == m.nonce && e[32..] == m.point;
    if ParseClientHello(data) == Ok(m) {
      assert data == data[..32] + data[32..];
    }
  }

  /** Where the fields of the fixed-size messages stand. */
  lemma FixedLayouts(h: ClientHello, c: Commit)
    requires ClientHelloOk(h) && CommitOk(c)
    ensures var data := ClientHelloBytes(h);
            |data| == 64 && (forall i :: 0 <= i < 32 ==> data[i] == h.nonce[i] && data[32 + i] == h.point[i])
    ensures var data := CommitBytes(c);
            && |data| == 96 && (forall i :: 0 <= i < 64 ==> data[i] == c.transcript[i])
            && (forall i :: 0 <= i < 32 ==> data[64 + i] == c.tag[i])
  {
  }

  lemma CommitRoundTrip(m: Commit, data: Octets)
    requires CommitOk(m)
    ensures ParseCommit(data) == Ok(m) <==> data == CommitBytes(m)
  {
    var e := CommitBytes(m);
    assert e[..64] == m.transcript && e[64..] == m.tag;
    if ParseCommit(data) == Ok(m) {
      assert data == data[..64] + data[64..];
    }
  }

  /** A blob that begins at its length field and ends the message. */
  lemma WholeBlob(value: Octets, tail: Octets)
    requires |value| <= MAX_BLOB
    ensures DecodeBlob(EncodeBlob(value).value + tail, 0) == Ok((value, 2 + |value|))
  {
    BlobInContext([], value, tail);
    assert [] + EncodeBlob(value).value + tail == EncodeBlob(value).value + tail;
  }

  /** The finish message is read back, and refused with anything behind it. */
  lemma ClientFinishRoundTrip(m: ClientFinish, tail: Octets)
    requires m.ciphertext != [] && |m.ciphertext| <= MAX_BLOB
    ensures var encoded := ClientFinishBytes(m).value;
            && (ParseClientFinish(encoded + tail).Ok? <==> tail == [])
            && (tail == [] ==> ParseClientFinish(encoded + tail) == Ok(m))
  {
    WholeBlob(m.ciphertext, tail);
  }

  /** What parses as a finish is the blob of its ciphertext, which is not empty. */
  lemma FinishParsesOnly(data: Octets)
    requires ParseClientFinish(data).Ok?
    ensures var m := ParseClientFinish(data).value;
            m.ciphertext != [] && |data| == 2 + |m.ciphertext| && data[2..] == m.ciphertext
  {
  }

  /** The message a peer holds after the wire: the same fields, with the certificate's source attached. */
  function Received(m: ServerHello): ServerHello {
    m.(certificate := m.certificate.(sourceData := Some(Certificate.Data(m.certificate))))
  }

  predicate Blob(value: Octets, encoded: Octets) {
    |value| <= MAX_BLOB && encoded == EncodeBlob(value).value
  }

  /** Reading a blob off what is left of the message leaves the rest. */
  lemma ReadBlob(data: Octets, offset: nat, value: Octets, encoded: Octets, rest: Octets)
    requires Blob(value, encoded) && offset <= |data| && data[offset..] == encoded + rest
    ensures DecodeBlob(data, offset) == Ok((value, offset + |encoded|))
    ensures offset + |encoded| <= |data| && data[offset + |encoded|..] == rest
  {
    var before := data[..offset];
    assert data == before + encoded + rest;
    BlobInContext(before, value, rest);
    assert data[offset + |encoded|..] == data[offset..][|encoded|..];
  }

  lemma ReadText(data: Octets, offset: nat, text: string, encoded: Octets, rest: Octets)
    requires Blob(Text(text), encoded) && offset <= |data| && data[offset..] == encoded + rest
    ensures DecodeText(data, offset) == Ok((text, offset + |encoded|))
    ensures offset + |encoded| <= |data| && data[offset + |encoded|..] == rest
  {
    ReadBlob(data, offset, Text(text), encoded, rest);
    AsTextOfText(text);
  }

  lemma FieldsCompose(data: Octets, kem: Octets, o1: nat, algorithm: string, o2: nat, certificate: Octets, o3: nat)
    requires DecodeBlob(data, 64) == Ok((kem, o1)) && DecodeText(data, o1) == Ok((algorithm, o2))
    requires DecodeBlob(data, o2) == Ok((certificate, o3))
    ensures HelloFields(data, 64) == Ok((kem, algorithm, certificate, o3))
  {
  }

  lemma ReadFields(data: Octets, kem: Octets, algorithm: string, certificate: Octets,
                   ek: Octets, ea: Octets, ec: Octets, rest: Octets)
    requires Blob(kem, ek) && Blob(Text(algorithm), ea) && Blob(certificate, ec)
    requires |data| >= 64 && data[64..] == ek + (ea + (ec + rest))
    ensures var end := 64 + |ek| + |ea| + |ec|;
            end <= |data| && data[end..] == rest && HelloFields(data, 64) == Ok((kem, algorithm, certificate, end))
  {
    var o1 := 64 + |ek|;
    var o2 := o1 + |ea|;
    var o3 := o2 + |ec|;
    ReadBlob(data, 64, kem, ek, ea + (ec + rest));
    ReadText(data, o1, algorithm, ea, ec + rest);
    ReadBlob(data, o2, certificate, ec, rest);
    FieldsCompose(data, kem, o1, algorithm, o2, certificate, o3);
  }

  /** The offsets at which the blobs of a hello with these fields end, and the tail begins. */
  ghost predicate Reads(data: Octets, m: ServerHello, certificate: Octets, tail: Octets) {
    exists o3: nat, o4: nat ::
      && HelloFields(data, 64) == Ok((m.kemKey, m.algorithm, certificate, o3))
      && DecodeBlob(data, o3) == Ok((m.signature, o4)) && o4 + |tail| == |data|
  }

  lemma ParsedFromFields(s: Serializer, m: ServerHello, data: Octets, certificate: Octets, tail: Octets)
    requires ServerHelloOk(m) && |data| >= 72 && data[..32] == m.nonce && data[32..64] == m.point
    requires Reads(data, m, certificate, tail)
    requires Certificate.FromBytes(s, certificate) == Ok(Received(m).certificate)
    ensures ParseServerHello(s, data).Ok? <==> tail == []
    ensures tail == [] ==> ParseServerHello(s, data) == Ok(Received(m))
  {
  }

  lemma ReadHello(data: Octets, m: ServerHello, certificate: Octets, tail: Octets,
                  ek: Octets, ea: Octets, ec: Octets, es: Octets)
    requires Blob(m.kemKey, ek) && Blob(Text(m.algorithm), ea) && Blob(certificate, ec) && Blob(m.signature, es)
    requires |data| >= 64 && data[64..] == ek + (ea + (ec + (es + tail)))
    ensures Reads(data, m, certificate, tail)
  {
    ReadFields(data, m.kemKey, m.algorithm, certificate, ek, ea, ec, es + tail);
    var o3 := HelloFields(data, 64).value.3;
    ReadBlob(data, o3, m.signature, es, tail);
  }

  lemma HelloBytesShape(s: Serializer, m: ServerHello)
    requires ServerHelloBytes(s, m).Ok?
    ensures var c := Certificate.ToBytes(s, m.certificate);
            && |m.kemKey| <= MAX_BLOB && |Text(m.algorithm)| <= MAX_BLOB && |c| <= MAX_BLOB && |m.signature| <= MAX_BLOB
            && ServerHelloBytes(s, m).value == m.nonce + m.point + EncodeBlob(m.kemKey).value
               + EncodeBlob(Text(m.algorithm)).value + EncodeBlob(c).value + EncodeBlob(m.signature).value
  {
  }

  lemma Regroup(nonce: Octets, point: Octets, a: Octets, b: Octets, c: Octets, d: Octets, tail: Octets)
    requires |nonce| == 32 && |point| == 32
    ensures var data := nonce + point + a + b + c + d + tail;
            && |data| == 64 + |a| + |b| + |c| + |d| + |tail| && data[..32] == nonce && data[32..64] == point
            && data[64..] == a + (b + (c + (d + tail)))
  {
    var data := nonce + point + a + b + c + d + tail;
    assert data == nonce + (point + (a + (b + (c + (d + tail)))));
  }

  /** The received message encodes like the one sent. */
  lemma ReceivedEncodesAlike(s: Serializer, m: ServerHello)
    requires Certificate.Lawful(s) && Certificate.WellFormed(m.certificate)
    ensures ServerHelloBytes(s, Received(m)) == ServerHelloBytes(s, m)
    ensures ServerHelloUnsigned(s, Received(m)) == ServerHelloUnsigned(s, m)
  {
    Certificate.BytesRoundTrip(s, m.certificate);
  }

  /** A server hello whose certificate cannot be read back is refused. */
  lemma UnreadableHello(s: Serializer, m: ServerHello)
    requires ServerHelloOk(m) && ServerHelloBytes(s, m).Ok?
    requires Certificate.FromBytes(s, Certificate.ToBytes(s, m.certificate)).Err?
    ensures ParseServerHello(s, ServerHelloBytes(s, m).value).Err?
  {
    HelloBytesShape(s, m);
    var text, cert := Text(m.algorithm), Certificate.ToBytes(s, m.certificate);
    var data := ServerHelloBytes(s, m).value;
    var ek, ea, ec, es := EncodeBlob(m.kemKey).value, EncodeBlob(text).value, EncodeBlob(cert).value,
                          EncodeBlob(m.signature).value;
    Regroup(m.nonce, m.point, ek, ea, ec, es, []);
    assert data + [] == data;
    UnreadableFields(s, m, cert, data, ek, ea, ec, es + []);
  }

  lemma UnreadableFields(s: Serializer, m: ServerHello, certificate: Octets, data: Octets,
                         ek: Octets, ea: Octets, ec: Octets, rest: Octets)
    requires Certificate.FromBytes(s, certificate).Err?
    requires Blob(m.kemKey, ek) && Blob(Text(m.algorithm), ea) && Blob(certificate, ec)
    requires |data| >= 64 && data[64..] == ek + (ea + (ec + rest))
    ensures ParseServerHello(s, data).Err?
  {
    ReadFields(data, m.kemKey, m.algorithm, certificate, ek, ea, ec, rest);
  }

  lemma EncodedReads(s: Serializer, m: ServerHello, tail: Octets)
    requires ServerHelloOk(m) && ServerHelloBytes(s, m).Ok?
    ensures var data := ServerHelloBytes(s, m).value + tail;
            && |data| >= 72 && data[..32] == m.nonce && data[32..64] == m.point
            && Reads(data, m, Certificate.ToBytes(s, m.certificate), tail)
  {
    HelloBytesShape(s, m);
    var text, cert := Text(m.algorithm), Certificate.ToBytes(s, m.certificate);
    var data := ServerHelloBytes(s, m).value + tail;
    var ek, ea, ec, es := EncodeBlob(m.kemKey).value, EncodeBlob(text).value, EncodeBlob(cert).value,
                          EncodeBlob(m.signature).value;
    Regroup(m.nonce, m.point, ek, ea, ec, es, tail);
    ReadHello(data, m, cert, tail, ek, ea, ec, es);
  }

  /** Every encodable server hello comes back with its fields; trailing octets are refused. */
  lemma ServerHelloRoundTrip(s: Serializer, m: ServerHello, tail: Octets)
    requires Certificate.Lawful(s) && ServerHelloOk(m) && Certificate.WellFormed(m.certificate)
    requires ServerHelloBytes(s, m).Ok?
    ensures var encoded := ServerHelloBytes(s, m).value;
            && (ParseServerHello(s, encoded + tail).Ok? <==> tail == [])
            && (tail == [] ==> ParseServerHello(s, encoded + tail) == Ok(Received(m)))
  {
    Certificate.BytesRoundTrip(s, m.certificate);
    EncodedReads(s, m, tail);
    ParsedFromFields(s, m, ServerHelloBytes(s, m).value + tail, Certificate.ToBytes(s, m.certificate), tail);
  }

  /** The fields of an encoded server hello stand in this order, each but the first two behind its length. */
  lemma HelloLayout(s: Serializer, m: ServerHello)
    requires ServerHelloBytes(s, m).Ok? && ServerHelloOk(m)
    ensures var data := ServerHelloBytes(s, m).value;
            && |data| >= 72 && data[..32] == m.nonce && data[32..64] == m.point
            && var (k, a, c) := (|m.kemKey|, |Text(m.algorithm)|, |Certificate.ToBytes(s, m.certificate)|);
               && |data| == 64 + 2 + k + 2 + a + 2 + c + 2 + |m.signature|
               && data[66..66 + k] == m.kemKey && data[68 + k..68 + k + a] == Text(m.algorithm)
               && data[70 + k + a..70 + k + a + c] == Certificate.ToBytes(s, m.certificate)
               && data[72 + k + a + c..] == m.signature
  {
    HelloBytesShape(s, m);
    var c := Certificate.ToBytes(s, m.certificate);
    var ek, ea, ec, es := EncodeBlob(m.kemKey).value, EncodeBlob(Text(m.algorithm)).value, EncodeBlob(c).value,
                          EncodeBlob(m.signature).value;
    assert ServerHelloBytes(s, m).value == m.nonce + m.point + ek + ea + ec + es;
  }

  /** What parses as a server hello has its blobs in place to the last octet, and a certificate that can be read. */
  lemma ParsedHelloShape(s: Serializer, data: Octets)
    requires ParseServerHello(s, data).Ok?
    ensures var m := ParseServerHello(s, data).value;
            && |data| >= 72 && m.nonce == data[..32] && m.point == data[32..64] && m.kemKey != [] && m.algorithm != ""
            && exists certificate: Octets, o1: nat, o2: nat, o3: nat ::
                 && DecodeBlob(data, 64) == Ok((m.kemKey, o1)) && DecodeText(data, o1) == Ok((m.algorithm, o2))
                 && DecodeBlob(data, o2) == Ok((certificate, o3)) && DecodeBlob(data, o3) == Ok((m.signature, |data|))
                 && Certificate.FromBytes(s, certificate) == Ok(m.certificate)
  {
    var (kemKey, o1) := DecodeBlob(data, 64).value;
    var (algorithm, o2) := DecodeText(data, o1).value;
    var (certificate, o3) := DecodeBlob(data, o2).value;
    var m := ParseServerHello(s, data).value;
    assert DecodeBlob(data, o3) == Ok((m.signature, |data|));
  }

  // ----- transcript -----

  const DOMAIN_BINDING := "gn:pq:domain-binding:v1"
  const TRANSCRIPT := "gn:pq:transcript:v1"

  function DomainBinding(domain: string): (b: Octets)
    ensures |b| == 64
  {
    HkdfSha3(Text(domain), 64, [], DOMAIN_BINDING)
  }

  lemma DomainBindingInjective(a: string, b: string)
    requires DomainBinding(a) == DomainBinding(b)
    ensures a == b
  {
    HkdfInjective(Text(a), [], DOMAIN_BINDING, Text(b), [], DOMAIN_BINDING, 64);
    TextInjective(a, b);
  }

  /** The framed payloads; an oversized one is an error. */
  function Frame(payloads: seq<Octets>): Result<Octets> {
    if payloads == [] then Ok([])
    else
      var head :- EncodeBlob(payloads[0]);
      var rest :- Frame(payloads[1..]);
      Ok(head + rest)
  }

  function TranscriptInput(domain: string, payloads: seq<Octets>): Result<Octets> {
    var framed :- Frame(payloads);
    Ok(DomainBinding(domain) + framed)
  }

  function TranscriptHash(domain: string, payloads: seq<Octets>): (r: Result<Octets>)
    ensures r.Ok? ==> |r.value| == 64
  {
    var input :- TranscriptInput(domain, payloads);
    Ok(HkdfSha3(input, 64, [], TRANSCRIPT))
  }

  /** Payloads are framed one after the other. */
  lemma {:induction false} FrameConcat(a: seq<Octets>, b: seq<Octets>)
    requires Frame(a).Ok? && Frame(b).Ok?
    ensures Frame(a + b).Ok? && Frame(a + b).value == Frame(a).value + Frame(b).value
  {
    if a == [] {
      assert a + b == b;
    } else {
      assert (a + b)[1..] == a[1..] + b;
      FrameConcat(a[1..], b);
      Associates(EncodeBlob(a[0]).value, Frame(a[1..]).value, Frame(b).value);
    }
  }

  lemma Associates(x: Octets, y: Octets, z: Octets)
    ensures x + y + z == x + (y + z)
  {
  }

  /** Payloads are framed exactly when each fits, and one alone is its length and itself. */
  lemma {:induction false} FramesExactly(payloads: seq<Octets>)
    ensures Frame(payloads).Ok? <==> forall i :: 0 <= i < |payloads| ==> |payloads[i]| <= 0xFFFF
    ensures |payloads| == 1 && |payloads[0]| <= 0xFFFF ==> Frame(payloads) == EncodeBlob(payloads[0])
  {
    if payloads != [] {
      FramesExactly(payloads[1..]);
      assert forall i :: 0 < i < |payloads| ==> payloads[i] == payloads[1..][i - 1];
      assert forall i :: 0 <= i < |payloads[1..]| ==> payloads[1..][i] == payloads[i + 1];
      if |payloads| == 1 && |payloads[0]| <= 0xFFFF {
        assert payloads[1..] == [];
        assert EncodeBlob(payloads[0]).value + [] == EncodeBlob(payloads[0]).value;
      }
    }
  }

  lemma FrameTail(payloads: seq<Octets>, i: nat)
    requires i < |payloads|
    ensures Frame(payloads[i..]) ==
            if EncodeBlob(payloads[i]).Err? then Err(EncodeBlob(payloads[i]).reason)
            else if Frame(payloads[i + 1..]).Err? then Frame(payloads[i + 1..])
            else Ok(EncodeBlob(payloads[i]).value + Frame(payloads[i + 1..]).value)
  {
    assert payloads[i..][1..] == payloads[i + 1..];
  }

  method BuildTranscriptHash(domain: string, payloads: seq<Octets>) returns (r: Result<Octets>)
    ensures r == TranscriptHash(domain, payloads)
  {
    var transcript := DomainBinding(domain);
    var i := 0;
    assert payloads[0..] == payloads;
    while i < |payloads|
      invariant 0 <= i <= |payloads|
      invariant TranscriptInput(domain, payloads) ==
                (var rest := Frame(payloads[i..]); if rest.Err? then rest else Ok(transcript + rest.value))
    {
      FrameTail(payloads, i);
      var blob := EncodeBlob(payloads[i]);
      if blob.Err? {
        return Err(blob.reason);
      }
      assert Frame(payloads[i + 1..]).Ok? ==>
          transcript + (blob.value + Frame(payloads[i + 1..]).value)
          == transcript + blob.value + Frame(payloads[i + 1..]).value;
      transcript := transcript + blob.value;
      i := i + 1;
    }
    assert payloads[|payloads|..] == [];
    assert transcript + [] == transcript;
    return Ok(HkdfSha3(transcript, 64, [], TRANSCRIPT));
  }

  /** Framing loses nothing: payload lists of any lengths frame alike only when they are equal. */
  lemma {:induction false} FrameInjective(a: seq<Octets>, b: seq<Octets>)
    requires Frame(a).Ok? && Frame(a) == Frame(b)
    ensures a == b
    decreases |a|
  {
    if a != [] && b != [] {
      var ra, rb := Frame(a[1..]).value, Frame(b[1..]).value;
      WholeBlob(a[0], ra);
      WholeBlob(b[0], rb);
      var ea, eb := EncodeBlob(a[0]).value, EncodeBlob(b[0]).value;
      assert ea + ra == eb + rb;
      assert a[0] == b[0];
      assert (ea + ra)[|ea|..] == ra && (eb + rb)[|eb|..] == rb;
      FrameInjective(a[1..], b[1..]);
      assert a == [a[0]] + a[1..] && b == [b[0]] + b[1..];
    }
  }

  /** Two transcripts hash alike exactly when the domain and every payload are equal. */
  lemma TranscriptBinds(d1: string, p1: seq<Octets>, d2: string, p2: seq<Octets>)
    requires TranscriptHash(d1, p1).Ok? && TranscriptHash(d2, p2).Ok?
    ensures TranscriptHash(d1, p1) == TranscriptHash(d2, p2) <==> d1 == d2 && p1 == p2
  {
    if TranscriptHash(d1, p1) == TranscriptHash(d2, p2) {
      var i1, i2 := TranscriptInput(d1, p1).value, TranscriptInput(d2, p2).value;
      HkdfInjective(i1, [], TRANSCRIPT, i2, [], TRANSCRIPT, 64);
      assert i1[..64] == DomainBinding(d1) && i2[..64] == DomainBinding(d2);
      assert i1[64..] == Frame(p1).value && i2[64..] == Frame(p2).value;
      DomainBindingInjective(d1, d2);
      FrameInjective(p1, p2);
    }
  }

  // ----- session root -----

  const KDC_MIX := "gn:pq:kdc-mix:v1"
  const SESSION_ROOT := "gn:pq:session-root:v1"

  function Salt(domain: string, clientNonce: Octets, serverNonce: Octets): Octets {
    DomainBinding(domain) + clientNonce + serverNonce
  }

  function Zeros(n: nat): (s: Octets)
    ensures |s| == n
    ensures forall i :: 0 <= i < n ==> s[i] == Raw(0)
  {
    seq(n, i => Raw(0))
  }

  function KdcMix(kdcKey: Option<Octets>, domain: string, clientNonce: Octets, serverNonce: Octets): (m: Octets)
    ensures |m| == 64
  {
    if kdcKey.None? then Zeros(64) else HkdfSha3(kdcKey.value, 64, Salt(domain, clientNonce, serverNonce), KDC_MIX)
  }

  /** What the session root is derived from. */
  datatype RootInputs = RootInputs(
    domain: string, clientNonce: Octets, serverNonce: Octets, kemSecret: Octets, curveSecret: Octets,
    transcript: Octets, kdcKey: Option<Octets>)

  predicate RootInputsOk(r: RootInputs) {
    |r.clientNonce| == NONCE_LEN && |r.serverNonce| == NONCE_LEN && |r.transcript| == 64
  }

  function SessionRoot(r: RootInputs): (root: Octets)
    ensures |root| == 64
  {
    var mix := KdcMix(r.kdcKey, r.domain, r.clientNonce, r.serverNonce);
    HkdfSha3(r.kemSecret + r.curveSecret + mix + r.transcript, 64,
             Salt(r.domain, r.clientNonce, r.serverNonce), SESSION_ROOT)
  }

  lemma SaltInjective(d1: string, c1: Octets, s1: Octets, d2: string, c2: Octets, s2: Octets)
    requires |c1| == 32 && |c2| == 32 && |s1| == 32 && |s2| == 32
    requires Salt(d1, c1, s1) == Salt(d2, c2, s2)
    ensures d1 == d2 && c1 == c2 && s1 == s2
  {
    var x, y := Salt(d1, c1, s1), Salt(d2, c2, s2);
    assert x[..64] == DomainBinding(d1) && y[..64] == DomainBinding(d2);
    assert x[64..96] == c1 && y[64..96] == c2;
    assert x[96..] == s1 && y[96..] == s2;
    DomainBindingInjective(d1, d2);
  }

  lemma KdcMixInjective(k1: Option<Octets>, k2: Option<Octets>, d: string, c: Octets, s: Octets)
    requires KdcMix(k1, d, c, s) == KdcMix(k2, d, c, s)
    ensures k1 == k2
  {
    var m1, m2 := KdcMix(k1, d, c, s), KdcMix(k2, d, c, s);
    assert k1.Some? ==> m1[0].Out?;
    assert k2.Some? ==> m2[0].Out?;
    if k1.Some? && k2.Some? {
      HkdfInjective(k1.value, Salt(d, c, s), KDC_MIX, k2.value, Salt(d, c, s), KDC_MIX, 64);
    }
  }

  /** With both secrets at their fixed width, a root determines everything it was derived from. */
  lemma RootBinds(a: RootInputs, b: RootInputs)
    requires RootInputsOk(a) && RootInputsOk(b)
    requires |a.kemSecret| == 32 && |b.kemSecret| == 32 && |a.curveSecret| == 32 && |b.curveSecret| == 32
    ensures SessionRoot(a) == SessionRoot(b) <==> a == b
  {
    if SessionRoot(a) == SessionRoot(b) {
      var ma, mb := KdcMix(a.kdcKey, a.domain, a.clientNonce, a.serverNonce),
                    KdcMix(b.kdcKey, b.domain, b.clientNonce, b.serverNonce);
      var x, y := a.kemSecret + a.curveSecret + ma + a.transcript, b.kemSecret + b.curveSecret + mb + b.transcript;
      HkdfInjective(x, Salt(a.domain, a.clientNonce, a.serverNonce), SESSION_ROOT,
                    y, Salt(b.domain, b.clientNonce, b.serverNonce), SESSION_ROOT, 64);
      SaltInjective(a.domain, a.clientNonce, a.serverNonce, b.domain, b.clientNonce, b.serverNonce);
      FourFields(a.kemSecret, a.curveSecret, ma, a.transcript, b.kemSecret, b.curveSecret, mb, b.transcript);
      KdcMixInjective(a.kdcKey, b.kdcKey, a.domain, a.clientNonce, a.serverNonce);
    }
  }

  lemma FourFields(a1: Octets, a2: Octets, a3: Octets, a4: Octets, b1: Octets, b2: Octets, b3: Octets, b4: Octets)
    requires |a1| == |b1| && |a2| == |b2| && |a3| == |b3|
    requires a1 + a2 + a3 + a4 == b1 + b2 + b3 + b4
    ensures a1 == b1 && a2 == b2 && a3 == b3 && a4 == b4
  {
    var x, y := a1 + a2 + a3 + a4, b1 + b2 + b3 + b4;
    var i, j, k := |a1|, |a1| + |a2|, |a1| + |a2| + |a3|;
    assert x[..i] == a1 && y[..i] == b1;
    assert x[i..j] == a2 && y[i..j] == b2;
    assert x[j..k] == a3 && y[j..k] == b3;
    assert x[k..] == a4 && y[k..] == b4;
  }

  // ----- commit -----

  const COMMIT := "gn:pq:commit:v1"

  function CommitFor(root64: Octets, transcript: Octets): Commit {
    Commit(transcript, HkdfSha3(root64, 32, transcript, COMMIT))
  }

  /** The check uses the transcript hash the commit itself carries. */
  predicate CommitVerifies(root64: Octets, c: Commit) {
    CommitFor(root64, c.transcript).tag == c.tag
  }

  /** A commit built from a root verifies under that root and no other. */
  lemma CommitBindsRoot(root: Octets, transcript: Octets, other: Octets)
    ensures CommitVerifies(other, CommitFor(root, transcript)) <==> other == root
  {
    if CommitVerifies(other, CommitFor(root, transcript)) {
      HkdfInjective(other, transcript, COMMIT, root, transcript, COMMIT, 32);
    }
  }

  // ----- the derivations, spelled out -----

  /** What binding, transcript, mix, root and commit are derived from, in which order and under which labels. */
  lemma Derivations(r: RootInputs, payloads: seq<Octets>, key: Octets)
    requires Frame(payloads).Ok?
    ensures var binding := HkdfSha3(Text(r.domain), 64, [], "gn:pq:domain-binding:v1");
            var salt := binding + r.clientNonce + r.serverNonce;
            var mix := if r.kdcKey.None? then Zeros(64) else HkdfSha3(r.kdcKey.value, 64, salt, "gn:pq:kdc-mix:v1");
            && TranscriptHash(r.domain, payloads)
               == Ok(HkdfSha3(binding + Frame(payloads).value, 64, [], "gn:pq:transcript:v1"))
            && SessionRoot(r)
               == HkdfSha3(r.kemSecret + r.curveSecret + mix + r.transcript, 64, salt, "gn:pq:session-root:v1")
            && CommitFor(key, r.transcript)
               == Commit(r.transcript, HkdfSha3(key, 32, r.transcript, "gn:pq:commit:v1"))
  {
  }
}
