// Route templates: the scanner that compiles a path expression, and what the
// compiled expression matches.
module Templates {
  import opened Prelude

  /** A literal character, or the text between two braces. */
  datatype Token = Literal(c: char) | Param(spec: string)

  datatype Pattern =
    | Anything               // "*"
    | Verbatim(regex: string)  // "!regex"
    | Tokens(tokens: seq<Token>)

  /** What the regular expressions of parameters accept: the table of named converters, the
      custom expressions (which may ask whether they stand at the start), and whole-path ones. */
  datatype Languages = Languages(
    named: (string, string) -> bool,
    custom: (string, bool, string) -> bool,
    verbatim: (string, string) -> bool)

  const CONVERTERS: set<string> :=
    {"str", "path", "int", "float", "bool", "uuid", "datetime", "date", "time", "decimal"}

  /** Position of the first c, or the length. */
  function IndexOf(s: string, c: char): (i: nat)
    ensures i <= |s|
    ensures i < |s| ==> s[i] == c
    ensures forall j :: 0 <= j < i ==> s[j] != c
  {
    if s == "" || s[0] == c then 0 else 1 + IndexOf(s[1..], c)
  }

  // ----- compilation -----

  function Scan(path: string): (r: Result<seq<Token>>)
    decreases |path|
  {
    if path == "" then Ok([])
    else if path[0] != '{' then
      var rest :- Scan(path[1..]);
      Ok([Literal(path[0])] + rest)
    else
      var j := IndexOf(path, '}');
      if j == |path| then Err("substring not found")
      else
        var rest :- Scan(path[j + 1..]);
        Ok([Param(path[1..j])] + rest)
  }

  function Compile(path: string): Result<Pattern> {
    if path == "*" then Ok(Anything)
    else if |path| > 1 && path[0] == '!' then Ok(Verbatim(path[1..]))
    else
      var tokens :- Scan(path);
      Ok(Tokens(tokens))
  }

  function Behind(parts: seq<Token>, r: Result<seq<Token>>): Result<seq<Token>> {
    if r.Ok? then Ok(parts + r.value) else r
  }

  lemma BehindStep(parts: seq<Token>, t: Token, r: Result<seq<Token>>)
    ensures Behind(parts, Behind([t], r)) == Behind(parts + [t], r)
  {
    if r.Ok? {
      assert parts + ([t] + r.value) == parts + [t] + r.value;
    }
  }

  lemma CharacterStep(path: string, i: nat, r: Result<seq<Token>>)
    requires i < |path| && path[i] != '{' && r == Scan(path[i + 1..])
    ensures Scan(path[i..]) == Behind([Literal(path[i])], r)
  {
    assert path[i..][1..] == path[i + 1..];
  }

  lemma ParameterStep(path: string, i: nat, offset: nat, r: Result<seq<Token>>)
    requires i < |path| && path[i] == '{' && offset == IndexOf(path[i..], '}') && offset < |path| - i
    requires r == Scan(path[i + offset + 1..])
    ensures Scan(path[i..]) == Behind([Param(path[i + 1..i + offset])], r)
  {
    assert path[i..][1..offset] == path[i + 1..i + offset];
    assert path[i..][offset + 1..] == path[i + offset + 1..];
  }

  /** One round of the scanner over a character. */
  lemma CharacterScanned(path: string, parts: seq<Token>, i: nat)
    requires i < |path| && path[i] != '{' && Scan(path) == Behind(parts, Scan(path[i..]))
    ensures Scan(path) == Behind(parts + [Literal(path[i])], Scan(path[i + 1..]))
  {
    var rest := Scan(path[i + 1..]);
    CharacterStep(path, i, rest);
    BehindStep(parts, Literal(path[i]), rest);
  }

  /** One round of the scanner over a parameter. */
  lemma ParameterScanned(path: string, parts: seq<Token>, i: nat, offset: nat)
    requires i < |path| && path[i] == '{' && offset == IndexOf(path[i..], '}') && offset < |path| - i
    requires Scan(path) == Behind(parts, Scan(path[i..]))
    ensures Scan(path) == Behind(parts + [Param(path[i + 1..i + offset])], Scan(path[i + offset + 1..]))
  {
    var rest := Scan(path[i + offset + 1..]);
    ParameterStep(path, i, offset, rest);
    BehindStep(parts, Param(path[i + 1..i + offset]), rest);
  }

  lemma Unclosed(path: string, parts: seq<Token>, i: nat)
    requires i < |path| && path[i] == '{' && IndexOf(path[i..], '}') == |path| - i
    requires Scan(path) == Behind(parts, Scan(path[i..]))
    ensures Scan(path) == Err("substring not found")
  {
  }

  lemma ScanStarts(path: string)
    ensures Scan(path) == Behind([], Scan(path[0..]))
  {
    assert path[0..] == path;
    var r := Scan(path);
    assert r.Ok? ==> [] + r.value == r.value;
  }

  lemma ScanEnds(path: string, parts: seq<Token>)
    requires Scan(path) == Behind(parts, Scan(path[|path|..]))
    ensures Scan(path) == Ok(parts)
  {
    assert path[|path|..] == "";
    assert parts + [] == parts;
  }

  method CompilePath(path: string) returns (r: Result<Pattern>)
    ensures r == Compile(path)
  {
    if path == "*" {
      return Ok(Anything);
    }
    if |path| > 1 && path[0] == '!' {
      return Ok(Verbatim(path[1..]));
    }
    var parts: seq<Token> := [];
    var i := 0;
    ScanStarts(path);
    while i < |path|
      invariant 0 <= i <= |path|
      invariant Scan(path) == Behind(parts, Scan(path[i..]))
    {
      if path[i] != '{' {
        CharacterScanned(path, parts, i);
        parts := parts + [Literal(path[i])];
        i := i + 1;
      } else {
        var offset := IndexOf(path[i..], '}');
        if offset == |path| - i {
          Unclosed(path, parts, i);
          return Err("substring not found");
        }
        ParameterScanned(path, parts, i, offset);
        var j := i + offset;
        parts := parts + [Param(path[i + 1..j])];
        i := j + 1;
      }
    }
    ScanEnds(path, parts);
    return Ok(Tokens(parts));
  }

  /** The text a token list was scanned from. */
  function Unscan(tokens: seq<Token>): string {
    if tokens == [] then ""
    else
      (match tokens[0] case Literal(c) => [c] case Param(spec) => "{" + spec + "}") + Unscan(tokens[1..])
  }

  /** The scanner loses nothing: a compiled template spells its path expression out again. */
  lemma {:induction false} UnscanScanned(path: string)
    requires Scan(path).Ok?
    ensures Unscan(Scan(path).value) == path
    decreases |path|
  {
    if path == "" {
    } else if path[0] != '{' {
      UnscanScanned(path[1..]);
      var rest := Scan(path[1..]).value;
      assert ([Literal(path[0])] + rest)[1..] == rest;
    } else {
      var j := IndexOf(path, '}');
      UnscanScanned(path[j + 1..]);
      var rest := Scan(path[j + 1..]).value;
      assert ([Param(path[1..j])] + rest)[1..] == rest;
      assert path == "{" + path[1..j] + "}" + path[j + 1..];
    }
  }

  // ----- matching -----

  /** The converter part of a parameter: after the first colon, or "str". */
  function Converter(spec: string): string {
    var i := IndexOf(spec, ':');
    if i == |spec| then "str" else spec[i + 1..]
  }

  predicate Accepts(l: Languages, spec: string, atStart: bool, text: string) {
    var conv := Converter(spec);
    if conv != "" && conv[0] == '^' then l.custom(conv, atStart, text)
    else l.named(if conv in CONVERTERS then conv else "str", text)
  }

  /** The whole text is a concatenation of what the tokens accept, in order. */
  predicate Matches(l: Languages, tokens: seq<Token>, text: string, atStart: bool)
    decreases |tokens|
  {
    if tokens == [] then text == ""
    else
      match tokens[0]
      case Literal(c) => text != "" && text[0] == c && Matches(l, tokens[1..], text[1..], false)
      case Param(spec) =>
        exists k :: 0 <= k <= |text| && Accepts(l, spec, atStart, text[..k])
                    && Matches(l, tokens[1..], text[k..], atStart && k == 0)
  }

  predicate FullMatch(l: Languages, p: Pattern, text: string) {
    match p
    case Anything => '\n' !in text
    case Verbatim(regex) => l.verbatim(regex, text)
    case Tokens(tokens) => Matches(l, tokens, text, true)
  }

  /** A literal prefix of the expression is a literal prefix of everything it matches. */
  lemma {:induction false} LiteralPrefix(l: Languages, prefix: string, tail: string, text: string, atStart: bool)
    requires '{' !in prefix && Scan(prefix + tail).Ok?
    ensures Scan(tail).Ok?
    ensures Matches(l, Scan(prefix + tail).value, text, atStart)
            <==> |prefix| <= |text| && text[..|prefix|] == prefix
                 && Matches(l, Scan(tail).value, text[|prefix|..], atStart && prefix == "")
    decreases |prefix|
  {
    if prefix == "" {
      assert prefix + tail == tail;
      assert text[0..] == text;
    } else {
      var path := prefix + tail;
      assert path[1..] == prefix[1..] + tail;
      assert path[0] == prefix[0];
      var rest := Scan(path[1..]).value;
      assert ([Literal(path[0])] + rest)[1..] == rest;
      if text == "" {
        LiteralPrefix(l, prefix[1..], tail, "", false);
      } else {
        LiteralPrefix(l, prefix[1..], tail, text[1..], false);
        if |prefix| <= |text| {
          assert text[1..][|prefix| - 1..] == text[|prefix|..];
          assert text[1..][..|prefix| - 1] == text[..|prefix|][1..];
          assert text[..|prefix|] == [text[0]] + text[1..][..|prefix| - 1];
          assert prefix == [prefix[0]] + prefix[1..];
        }
      }
    }
  }

  /** An expression without braces matches itself and nothing else. */
  lemma StaticMatchesItself(l: Languages, path: string, text: string)
    requires '{' !in path && Scan(path).Ok?
    ensures Matches(l, Scan(path).value, text, true) <==> text == path
  {
    assert path + "" == path;
    LiteralPrefix(l, path, "", text, true);
    if |path| <= |text| {
      assert text == text[..|path|] + text[|path|..];
    }
  }

  lemma {:induction false} StaticScans(path: string)
    requires '{' !in path
    ensures Scan(path).Ok?
    decreases |path|
  {
    if path != "" {
      StaticScans(path[1..]);
    }
  }

  // ----- which language a parameter has -----

  /** The converter stands behind the first colon, and is "str" without one. */
  lemma ConverterExactly(name: string, converter: string)
    requires ':' !in name
    ensures Converter(name + ":" + converter) == converter && Converter(name) == "str"
  {
    var spec := name + ":" + converter;
    assert spec[|name|] == ':';
    assert forall i :: 0 <= i < |name| ==> spec[i] == name[i] && name[i] in name;
    assert spec[|name| + 1..] == converter;
  }

  lemma ScanOneParameter(spec: string)
    requires '}' !in spec
    ensures Scan("{" + spec + "}") == Ok([Param(spec)])
  {
    var path := "{" + spec + "}";
    assert path[|spec| + 1] == '}' && forall i :: 1 <= i <= |spec| ==> path[i] == spec[i - 1] && spec[i - 1] in spec;
    assert path[0] == '{';
    assert IndexOf(path, '}') == |spec| + 1;
    assert path[1..|spec| + 1] == spec && path[|spec| + 2..] == "";
    assert Scan("") == Ok([]);
    assert [Param(spec)] + [] == [Param(spec)];
  }

  /** A template that is one parameter matches what its converter accepts: a known one by its name, an expression by
      itself, and whatever is unknown as a string; the name makes no difference. */
  lemma ParameterMatches(l: Languages, name: string, converter: string, text: string)
    requires ':' !in name && '}' !in name + ":" + converter && converter != ""
    ensures var path := "{" + (name + ":" + converter) + "}";
            && Compile(path).Ok?
            && (FullMatch(l, Compile(path).value, text)
                <==> if converter[0] == '^' then l.custom(converter, true, text)
                     else l.named(if converter in CONVERTERS then converter else "str", text))
  {
    var spec := name + ":" + converter;
    var path := "{" + spec + "}";
    ConverterExactly(name, converter);
    ScanOneParameter(spec);
    assert path[0] == '{';
    assert path != "*" by { assert |path| > 1 && |"*"| == 1; }
    OneTokenAt(l, spec, text, true);
  }

  /** "*" matches every text without a line break, and "!" puts a regular expression in place of a template. */
  lemma WholePathExpressions(l: Languages, regex: string, text: string)
    requires regex != ""
    ensures Compile("*").Ok? && (FullMatch(l, Compile("*").value, text) <==> '\n' !in text)
    ensures Compile("!" + regex).Ok? && (FullMatch(l, Compile("!" + regex).value, text) <==> l.verbatim(regex, text))
  {
    assert ("!" + regex)[1..] == regex;
    assert "!" + regex != "*" by { assert ("!" + regex)[0] == '!' && "*"[0] == '*'; }
  }

  /** Of two parameters in a row the second stands at the start of the text exactly when the first takes nothing. */
  lemma SecondParameter(l: Languages, first: string, second: string, text: string)
    ensures Matches(l, [Param(first), Param(second)], text, true)
            <==> exists k :: 0 <= k <= |text| && Accepts(l, first, true, text[..k])
                             && Accepts(l, second, k == 0, text[k..])
  {
    var tokens := [Param(first), Param(second)];
    assert tokens[1..] == [Param(second)];
    forall k | 0 <= k <= |text|
      ensures Matches(l, tokens[1..], text[k..], true && k == 0) <==> Accepts(l, second, k == 0, text[k..])
    {
      OneTokenAt(l, second, text[k..], k == 0);
    }
  }

  lemma OneTokenAt(l: Languages, spec: string, text: string, atStart: bool)
    ensures Matches(l, [Param(spec)], text, atStart) <==> Accepts(l, spec, atStart, text)
  {
    assert [Param(spec)][1..] == [];
    assert text[..|text|] == text;
    if Accepts(l, spec, atStart, text) {
      assert Accepts(l, spec, atStart, text[..|text|]) && Matches(l, [], text[|text|..], atStart && |text| == 0);
    }
  }
}
