// UTF-8 text (section 3 of RFC 3629), as str.encode and bytes.decode treat it.
module Utf8 {
  import opened Prelude
  import opened Bytes

  function EncodeChar(c: char): (s: seq<Byte>)
    ensures 1 <= |s| <= 4
  {
    var v := c as int;
    if v < 0x80 then [v]
    else if v < 0x800 then [0xC0 + v / 64, 0x80 + v % 64]
    else if v < 0x1_0000 then [0xE0 + v / 64 / 64, 0x80 + v / 64 % 64, 0x80 + v % 64]
    else [0xF0 + v / 64 / 64 / 64, 0x80 + v / 64 / 64 % 64, 0x80 + v / 64 % 64, 0x80 + v % 64]
  }

  /** The encoded characters, one after another. */
  function Chunks(text: string): (c: seq<seq<Byte>>)
    ensures |c| == |text|
    ensures forall i :: 0 <= i < |text| ==> c[i] == EncodeChar(text[i])
  {
    seq(|text|, i requires 0 <= i < |text| => EncodeChar(text[i]))
  }

  function Flatten(chunks: seq<seq<Byte>>): seq<Byte> {
    if chunks == [] then [] else chunks[0] + Flatten(chunks[1..])
  }

  function Encode(text: string): (s: seq<Byte>) {
    Flatten(Chunks(text))
  }

  lemma EncodeStep(text: string)
    ensures Encode(text) == if text == "" then [] else EncodeChar(text[0]) + Encode(text[1..])
  {
    if text != "" {
      assert Chunks(text)[1..] == Chunks(text[1..]);
    }
  }

  predicate Continuation(b: Byte) {
    0x80 <= b < 0xC0
  }

  function Code2(a: int, b: int): int {
    (a - 0xC0) * 64 + (b - 0x80)
  }

  function Code3(a: int, b: int, c: int): int {
    ((a - 0xE0) * 64 + (b - 0x80)) * 64 + (c - 0x80)
  }

  function Code4(a: int, b: int, c: int, d: int): int {
    (((a - 0xF0) * 64 + (b - 0x80)) * 64 + (c - 0x80)) * 64 + (d - 0x80)
  }

  /** Base-64 digits read back as the number they came from, and the other way round. */
  lemma Digits(high: int, low: int)
    requires 0 <= low < 64
    ensures (high * 64 + low) / 64 == high && (high * 64 + low) % 64 == low
  {
  }

  predicate ScalarValue(v: int) {
    0 <= v < 0xD800 || 0xE000 <= v < 0x11_0000
  }

  /** The first character and its width; overlong forms, surrogates and stray bytes are refused. */
  function DecodeChar(s: seq<Byte>): (r: Option<(char, nat)>)
    ensures r.Some? ==> 1 <= r.value.1 <= |s| && s[..r.value.1] == EncodeChar(r.value.0)
  {
    if s == [] then None
    else if s[0] < 0x80 then Some((s[0] as char, 1))
    else if 0xC2 <= s[0] < 0xE0 && |s| >= 2 && Continuation(s[1]) then Decode2(s)
    else if 0xE0 <= s[0] < 0xF0 && |s| >= 3 && Continuation(s[1]) && Continuation(s[2]) then Decode3(s)
    else if 0xF0 <= s[0] < 0xF5 && |s| >= 4 && Continuation(s[1]) && Continuation(s[2]) && Continuation(s[3]) then
      Decode4(s)
    else None
  }

  function Decode2(s: seq<Byte>): (r: Option<(char, nat)>)
    requires |s| >= 2 && 0xC2 <= s[0] < 0xE0 && Continuation(s[1])
    ensures r.Some? ==> r.value.1 == 2 && s[..2] == EncodeChar(r.value.0)
  {
    var v := Code2(s[0], s[1]);
    Digits(s[0] - 0xC0, s[1] - 0x80);
    Some((v as char, 2))
  }

  function Decode3(s: seq<Byte>): (r: Option<(char, nat)>)
    requires |s| >= 3 && 0xE0 <= s[0] < 0xF0 && Continuation(s[1]) && Continuation(s[2])
    ensures r.Some? ==> r.value.1 == 3 && s[..3] == EncodeChar(r.value.0)
  {
    var v := Code3(s[0], s[1], s[2]);
    Digits(Code2(s[0] - 0x20, s[1]), s[2] - 0x80);
    Digits(s[0] - 0xE0, s[1] - 0x80);
    if v >= 0x800 && ScalarValue(v) then Some((v as char, 3)) else None
  }

  function Decode4(s: seq<Byte>): (r: Option<(char, nat)>)
    requires |s| >= 4 && 0xF0 <= s[0] < 0xF5 && Continuation(s[1]) && Continuation(s[2]) && Continuation(s[3])
    ensures r.Some? ==> r.value.1 == 4 && s[..4] == EncodeChar(r.value.0)
  {
    var v := Code4(s[0], s[1], s[2], s[3]);
    Digits(Code3(s[0] - 0x10, s[1], s[2]), s[3] - 0x80);
    Digits(Code2(s[0] - 0x30, s[1]), s[2] - 0x80);
    Digits(s[0] - 0xF0, s[1] - 0x80);
    if v >= 0x1_0000 && ScalarValue(v) then Some((v as char, 4)) else None
  }

  lemma EncodeCons(c: char, rest: string)
    ensures Encode([c] + rest) == EncodeChar(c) + Encode(rest)
  {
    var chunks := Chunks([c] + rest);
    assert chunks[0] == EncodeChar(c);
    assert chunks[1..] == Chunks(rest);
  }

  lemma Rejoined(s: seq<Byte>, n: nat, head: seq<Byte>, tail: seq<Byte>)
    requires n <= |s| && s[..n] == head && s[n..] == tail
    ensures head + tail == s
  {
  }

  lemma EncodeBefore(s: seq<Byte>, c: char, n: nat, rest: string)
    requires n <= |s| && s[..n] == EncodeChar(c) && Encode(rest) == s[n..]
    ensures Encode([c] + rest) == s
  {
    EncodeCons(c, rest);
    Rejoined(s, n, EncodeChar(c), Encode(rest));
  }

  function Decode(s: seq<Byte>): (r: Option<string>)
    ensures r.Some? ==> Encode(r.value) == s
  {
    if s == [] then EncodeStep(""); Some("") else
      match DecodeChar(s)
      case None => None
      case Some((c, n)) =>
        match Decode(s[n..])
        case None => None
        case Some(rest) =>
          EncodeBefore(s, c, n, rest);
          Some([c] + rest)
  }

  lemma DecodeCharEncoded(c: char, rest: seq<Byte>)
    ensures DecodeChar(EncodeChar(c) + rest) == Some((c, |EncodeChar(c)|))
  {
    var v := c as int;
    var e := EncodeChar(c);
    var s := e + rest;
    assert ScalarValue(v);
    assert s[0] == e[0];
    if v < 0x80 {
    } else if v < 0x800 {
      assert s[1] == e[1];
      assert Code2(s[0], s[1]) == v;
    } else if v < 0x1_0000 {
      assert s[1] == e[1] && s[2] == e[2];
      assert Code3(s[0], s[1], s[2]) == v;
    } else {
      assert s[1] == e[1] && s[2] == e[2] && s[3] == e[3];
      assert Code4(s[0], s[1], s[2], s[3]) == v;
    }
  }

  lemma DecodeStep(c: char, tail: seq<Byte>, rest: string)
    requires Decode(tail) == Some(rest)
    ensures Decode(EncodeChar(c) + tail) == Some([c] + rest)
  {
    DecodeCharEncoded(c, tail);
    assert (EncodeChar(c) + tail)[|EncodeChar(c)|..] == tail;
  }

  /** Decoding undoes encoding, for every text. */
  lemma {:induction false} DecodeEncoded(text: string)
    ensures Decode(Encode(text)) == Some(text)
  {
    EncodeStep(text);
    if text != "" {
      DecodeEncoded(text[1..]);
      DecodeStep(text[0], Encode(text[1..]), text[1..]);
      assert [text[0]] + text[1..] == text;
    }
  }

  lemma EncodeInjective(a: string, b: string)
    requires Encode(a) == Encode(b)
    ensures a == b
  {
    DecodeEncoded(a);
    DecodeEncoded(b);
  }

  lemma {:induction false} FlattenConcat(a: seq<seq<Byte>>, b: seq<seq<Byte>>)
    ensures Flatten(a + b) == Flatten(a) + Flatten(b)
  {
    if a == [] {
      assert a + b == b;
    } else {
      assert (a + b)[1..] == a[1..] + b;
      FlattenConcat(a[1..], b);
    }
  }

  lemma EncodeConcat(a: string, b: string)
    ensures Encode(a + b) == Encode(a) + Encode(b)
  {
    assert Chunks(a + b) == Chunks(a) + Chunks(b);
    FlattenConcat(Chunks(a), Chunks(b));
  }

  lemma {:induction false} EncodedLength(text: string)
    ensures |Encode(text)| <= 4 * |text|
  {
    EncodeStep(text);
    if text != "" {
      EncodedLength(text[1..]);
    }
  }

  /** ASCII is encoded as it is. */
  lemma {:induction false} AsciiAsItIs(text: string)
    requires forall i :: 0 <= i < |text| ==> text[i] as int < 0x80
    ensures |Encode(text)| == |text| && forall i :: 0 <= i < |text| ==> Encode(text)[i] == text[i] as int
  {
    EncodeStep(text);
    if text != "" {
      AsciiAsItIs(text[1..]);
      assert forall i :: 0 < i < |text| ==> text[i] == text[1..][i - 1];
    }
  }

  /** One character of each length, as section 3 of RFC 3629 lays it out. */
  lemma Samples()
    ensures EncodeChar('\U{00E9}') == [0xC3, 0xA9]
    ensures EncodeChar('\U{20AC}') == [0xE2, 0x82, 0xAC]
    ensures EncodeChar('\U{1F600}') == [0xF0, 0x9F, 0x98, 0x80]
  {
  }
}
