// The TLS extension lists that carry handshake payloads (section 4.2 of RFC 8446),
// and the client's certificate flight.
module Extensions {
  import opened Prelude
  import opened Symbols
  import Certificate
  import opened Messages

  const CLIENT_HELLO := 0xFF80
  const SERVER_HELLO := 0xFF81
  const CLIENT_DOMAIN := 0xFF82
  const CLIENT_FINISH := 0xFF83
  const CLIENT_ALGORITHM := 0xFF84
  const CLIENT_SIGNATURE := 0xFF85

  datatype Extension = Extension(kind: nat, data: Octets)

  /** Type and length both have two octets on the wire. */
  predicate Fits(e: Extension) {
    e.kind <= 0xFFFF && |e.data| <= 0xFFFF
  }

  function EncodeOne(e: Extension): (s: Octets)
    requires Fits(e)
    ensures |s| == |e.data| + 4
  {
    EncodeLength(e.kind) + (EncodeLength(|e.data|) + e.data)
  }

  function EncodeList(list: seq<Extension>): Result<Octets> {
    if list == [] then Ok([])
    else if !Fits(list[0]) then Err("extension does not fit")
    else
      var rest :- EncodeList(list[1..]);
      Ok(EncodeOne(list[0]) + rest)
  }

  /** The first extension of the data, and what follows it. */
  function ParseOne(data: Octets): (r: Result<(Extension, Octets)>)
    ensures r.Ok? ==> |r.value.1| < |data|
  {
    if |data| < 2 then Err("BufferReadError")
    else
      var kind := Number(data[0]) * 256 + Number(data[1]);
      var blob := DecodeBlob(data, 2);
      if blob.Err? then Err("BufferReadError")
      else Ok((Extension(kind, blob.value.0), data[blob.value.1..]))
  }

  function ParseList(data: Octets): Result<seq<Extension>>
    decreases |data|
  {
    if data == [] then Ok([])
    else
      var (first, rest) :- ParseOne(data);
      var others :- ParseList(rest);
      Ok([first] + others)
  }

  /** Some(d) for the data of the first extension of the kind. */
  function Find(list: seq<Extension>, kind: nat): Option<Octets> {
    if list == [] then None else if list[0].kind == kind then Some(list[0].data) else Find(list[1..], kind)
  }

  // ----- the loops -----

  lemma EncodeListTail(list: seq<Extension>, i: nat)
    requires i < |list|
    ensures EncodeList(list[i..]) ==
            if !Fits(list[i]) then Err("extension does not fit")
            else if EncodeList(list[i + 1..]).Err? then EncodeList(list[i + 1..])
            else Ok(EncodeOne(list[i]) + EncodeList(list[i + 1..]).value)
  {
    assert list[i..][1..] == list[i + 1..];
  }

  method EncodeExtensionList(list: seq<Extension>) returns (r: Result<Octets>)
    ensures r == EncodeList(list)
  {
    var buffer: Octets := [];
    var i := 0;
    assert list[0..] == list;
    assert EncodeList(list).Ok? ==> buffer + EncodeList(list).value == EncodeList(list).value;
    while i < |list|
      invariant 0 <= i <= |list|
      invariant EncodeList(list) ==
                (var rest := EncodeList(list[i..]); if rest.Err? then rest else Ok(buffer + rest.value))
    {
      EncodeListTail(list, i);
      if !Fits(list[i]) {
        return Err("extension does not fit");
      }
      var one := EncodeOne(list[i]);
      assert EncodeList(list[i + 1..]).Ok? ==>
          buffer + (one + EncodeList(list[i + 1..]).value) == buffer + one + EncodeList(list[i + 1..]).value;
      buffer := buffer + one;
      i := i + 1;
    }
    assert list[|list|..] == [] && buffer + [] == buffer;
    return Ok(buffer);
  }

  method ParseExtensionList(data: Octets) returns (r: Result<seq<Extension>>)
    ensures r == ParseList(data)
  {
    var extensions: seq<Extension> := [];
    var rest := data;
    assert ParseList(data).Ok? ==> extensions + ParseList(data).value == ParseList(data).value;
    while rest != []
      invariant ParseList(data) ==
                (var others := ParseList(rest); if others.Err? then others else Ok(extensions + others.value))
      decreases |rest|
    {
      var one := ParseOne(rest);
      if one.Err? {
        return Err(one.reason);
      }
      var (extension, next) := one.value;
      assert ParseList(next).Ok? ==>
          extensions + ([extension] + ParseList(next).value) == extensions + [extension] + ParseList(next).value;
      extensions := extensions + [extension];
      rest := next;
    }
    assert extensions + [] == extensions;
    return Ok(extensions);
  }

  method FindExtension(extensions: Option<seq<Extension>>, kind: nat) returns (r: Option<Octets>)
    ensures r == if extensions.None? then None else Find(extensions.value, kind)
  {
    if extensions.None? {
      return None;
    }
    var list := extensions.value;
    var i := 0;
    assert list[0..] == list;
    while i < |list|
      invariant 0 <= i <= |list|
      invariant Find(list, kind) == Find(list[i..], kind)
    {
      if list[i].kind == kind {
        return Some(list[i].data);
      }
      assert list[i..][1..] == list[i + 1..];
      i := i + 1;
    }
    return None;
  }

  // ----- properties -----

  /** A found payload is that of the first extension of its kind; none is found only where there is none. */
  lemma {:induction false} FindsFirst(list: seq<Extension>, kind: nat)
    ensures Find(list, kind).None? <==> forall i :: 0 <= i < |list| ==> list[i].kind != kind
    ensures Find(list, kind).Some? ==>
              exists i :: 0 <= i < |list| && list[i] == Extension(kind, Find(list, kind).value)
                          && forall j :: 0 <= j < i ==> list[j].kind != kind
  {
    if list != [] && list[0].kind != kind {
      FindsFirst(list[1..], kind);
      assert forall i :: 0 < i < |list| ==> list[i] == list[1..][i - 1];
      if Find(list, kind).Some? {
        var k :| 0 <= k < |list| - 1 && list[1..][k] == Extension(kind, Find(list, kind).value)
                 && forall j :: 0 <= j < k ==> list[1..][j].kind != kind;
        assert list[k + 1] == Extension(kind, Find(list, kind).value);
        assert forall j :: 0 < j < k + 1 ==> list[j] == list[1..][j - 1];
      }
    }
  }

  lemma ParseEncodedOne(e: Extension, rest: Octets)
    requires Fits(e)
    ensures ParseOne(EncodeOne(e) + rest) == Ok((e, rest))
  {
    var head := EncodeLength(e.kind);
    BlobInContext(head, e.data, rest);
    assert EncodeOne(e) + rest == head + EncodeBlob(e.data).value + rest;
  }

  /** Exactly the lists that fit are encoded, and each is parsed back. */
  lemma {:induction false} ListRoundTrip(list: seq<Extension>)
    ensures EncodeList(list).Ok? <==> forall i :: 0 <= i < |list| ==> Fits(list[i])
    ensures EncodeList(list).Ok? ==> ParseList(EncodeList(list).value) == Ok(list)
  {
    if list != [] {
      ListRoundTrip(list[1..]);
      assert forall i :: 0 < i < |list| ==> list[i] == list[1..][i - 1];
      if EncodeList(list).Ok? {
        ParseEncodedOne(list[0], EncodeList(list[1..]).value);
        assert [list[0]] + list[1..] == list;
      }
    }
  }

  predicate AllRaw(data: Octets) {
    forall i :: 0 <= i < |data| ==> data[i].Raw?
  }

  lemma ParsedOneEncodes(data: Octets)
    requires AllRaw(data) && ParseOne(data).Ok?
    ensures var (e, rest) := ParseOne(data).value;
            Fits(e) && data == EncodeOne(e) + rest
  {
    var (e, rest) := ParseOne(data).value;
    var end := DecodeBlob(data, 2).value.1;
    assert data == data[..2] + data[2..4] + data[4..end] + data[end..];
    assert data[..2] == EncodeLength(e.kind);
    assert data[2..4] == EncodeLength(|e.data|);
  }

  /** On literal octets parsing succeeds for the encodings of lists and for nothing else. */
  lemma {:induction false} ParsesOnlyEncodings(data: Octets, list: seq<Extension>)
    requires AllRaw(data)
    ensures ParseList(data) == Ok(list) <==> EncodeList(list) == Ok(data)
    decreases |data|
  {
    if EncodeList(list) == Ok(data) {
      ListRoundTrip(list);
    }
    if ParseList(data) == Ok(list) && data != [] {
      var (e, rest) := ParseOne(data).value;
      ParsedOneEncodes(data);
      assert list[0] == e && list[1..] == ParseList(rest).value;
      assert forall i :: 0 <= i < |rest| ==> rest[i] == data[|EncodeOne(e)| + i];
      ParsesOnlyEncodings(rest, list[1..]);
      EncodesHead(list, rest);
    }
  }

  lemma EncodesHead(list: seq<Extension>, rest: Octets)
    requires list != [] && Fits(list[0]) && EncodeList(list[1..]) == Ok(rest)
    ensures EncodeList(list) == Ok(EncodeOne(list[0]) + rest)
  {
  }

  // ----- the client's certificate flight -----

  /** The first certificate entry: its data and its extension block. */
  type Entry = (Octets, Octets)

  function AnonymousFlight(finish: Octets): Entry {
    ([], finish)
  }

  function SignedList(finish: Octets, algorithm: string, signature: Octets): seq<Extension> {
    [Extension(CLIENT_FINISH, finish), Extension(CLIENT_ALGORITHM, Text(algorithm)),
     Extension(CLIENT_SIGNATURE, signature)]
  }

  function CertifiedFlight(
    s: Serializer, c: Cert, finish: Octets, algorithm: string, signature: Octets): Result<Entry>
  {
    var block :- EncodeList(SignedList(finish, algorithm, signature));
    Ok((Certificate.ToBytes(s, c), block))
  }

  datatype Flight =
    | Anonymous(finish: ClientFinish)
    | Certified(certificate: Cert, finish: ClientFinish, algorithm: string, signature: Octets)

  /** What the server takes from the entry, before any check of the certificate. */
  function ReadFlight(s: Serializer, entry: Entry): Result<Flight> {
    if entry.0 == [] then
      var finish :- ParseClientFinish(entry.1);
      Ok(Anonymous(finish))
    else
      var certificate :- Certificate.FromBytes(s, entry.0);
      var list :- ParseList(entry.1);
      var payload, name, signature := Find(list, CLIENT_FINISH), Find(list, CLIENT_ALGORITHM),
                                      Find(list, CLIENT_SIGNATURE);
      if payload.None? || name.None? || signature.None? then Err("GN PQ client certificate flight is incomplete")
      else
        var finish :- ParseClientFinish(payload.value);
        var algorithm := AsText(name.value);
        if algorithm.None? then Err("UnicodeDecodeError")
        else Ok(Certified(certificate, finish, algorithm.value, signature.value))
  }

  predicate FinishOk(m: ClientFinish) {
    m.ciphertext != [] && |m.ciphertext| <= MAX_BLOB
  }

  lemma FinishReadBack(m: ClientFinish)
    requires FinishOk(m)
    ensures ParseClientFinish(ClientFinishBytes(m).value) == Ok(m)
  {
    ClientFinishRoundTrip(m, []);
    assert ClientFinishBytes(m).value + [] == ClientFinishBytes(m).value;
  }

  lemma AnonymousFlightRoundTrip(s: Serializer, m: ClientFinish)
    requires FinishOk(m)
    ensures ReadFlight(s, AnonymousFlight(ClientFinishBytes(m).value)) == Ok(Anonymous(m))
  {
    FinishReadBack(m);
  }

  /** The server recovers the finish, algorithm and signature sent, and the certificate with its source. */
  lemma CertifiedFlightRoundTrip(s: Serializer, c: Cert, m: ClientFinish, algorithm: string, signature: Octets)
    requires Certificate.Lawful(s) && Certificate.WellFormed(c) && Certificate.ToBytes(s, c) != []
    requires FinishOk(m) && CertifiedFlight(s, c, ClientFinishBytes(m).value, algorithm, signature).Ok?
    ensures var entry := CertifiedFlight(s, c, ClientFinishBytes(m).value, algorithm, signature).value;
            ReadFlight(s, entry)
            == Ok(Certified(c.(sourceData := Some(Certificate.Data(c))), m, algorithm, signature))
  {
    var list := SignedList(ClientFinishBytes(m).value, algorithm, signature);
    Certificate.BytesRoundTrip(s, c);
    ListRoundTrip(list);
    FinishReadBack(m);
    AsTextOfText(algorithm);
    FoundInSigned(ClientFinishBytes(m).value, algorithm, signature);
  }

  lemma FoundInSigned(finish: Octets, algorithm: string, signature: Octets)
    ensures var list := SignedList(finish, algorithm, signature);
            && Find(list, CLIENT_FINISH) == Some(finish) && Find(list, CLIENT_ALGORITHM) == Some(Text(algorithm))
            && Find(list, CLIENT_SIGNATURE) == Some(signature)
  {
    var list := SignedList(finish, algorithm, signature);
    assert list[1..] == [list[1], list[2]];
    assert list[1..][1..] == [list[2]];
    assert Find([list[2]], CLIENT_SIGNATURE) == Some(signature);
    assert Find(list[1..], CLIENT_SIGNATURE) == Find([list[2]], CLIENT_SIGNATURE);
  }

  /** The extensions behind a client's certificate: finish, algorithm and signature, in this order. */
  lemma SignedListTravels(s: Serializer, c: Cert, finish: Octets, algorithm: string, signature: Octets)
    requires CertifiedFlight(s, c, finish, algorithm, signature).Ok?
    ensures var entry := CertifiedFlight(s, c, finish, algorithm, signature).value;
            && entry.0 == Certificate.ToBytes(s, c) && ParseList(entry.1).Ok?
            && var list := ParseList(entry.1).value;
               && |list| == 3 && list[0] == Extension(0xFF83, finish) && list[1] == Extension(0xFF84, Text(algorithm))
               && list[2] == Extension(0xFF85, signature)
  {
    ListRoundTrip(SignedList(finish, algorithm, signature));
  }

  /** What the server takes from an entry: without a certificate a finish and nothing else; with one, the first finish,
      algorithm and signature of the list behind it, none of which may be missing. */
  lemma FlightTells(s: Serializer, entry: Entry)
    requires ReadFlight(s, entry).Ok?
    ensures var f := ReadFlight(s, entry).value;
            if entry.0 == [] then f.Anonymous? && ParseClientFinish(entry.1) == Ok(f.finish)
            else
              && f.Certified? && Certificate.FromBytes(s, entry.0) == Ok(f.certificate) && ParseList(entry.1).Ok?
              && var list := ParseList(entry.1).value;
                 && Find(list, CLIENT_FINISH).Some?
                 && ParseClientFinish(Find(list, CLIENT_FINISH).value) == Ok(f.finish)
                 && Find(list, CLIENT_ALGORITHM) == Some(Text(f.algorithm))
                 && Find(list, CLIENT_SIGNATURE) == Some(f.signature)
  {
    if entry.0 != [] {
      AsTextExactly(Find(ParseList(entry.1).value, CLIENT_ALGORITHM).value, ReadFlight(s, entry).value.algorithm);
    }
  }
}
