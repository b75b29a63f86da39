// Request paths and the first literal segment of a template: the string side of
// the route index.
module Paths {
  import opened Prelude
  import opened Templates

  function LStrip(s: string): string {
    if s != "" && s[0] == '/' then LStrip(s[1..]) else s
  }

  function RStrip(s: string): string {
    if s != "" && s[|s| - 1] == '/' then RStrip(s[..|s| - 1]) else s
  }

  function Strip(s: string): string {
    RStrip(LStrip(s))
  }

  function BeforeSlash(s: string): string {
    s[..IndexOf(s, '/')]
  }

  lemma {:induction false} RStripTwice(s: string)
    ensures RStrip(RStrip(s)) == RStrip(s)
    ensures RStrip(s + "/") == RStrip(s)
  {
    assert (s + "/")[..|s + "/"| - 1] == s;
    if s != "" && s[|s| - 1] == '/' {
      RStripTwice(s[..|s| - 1]);
    }
  }

  /** The request path and its variant with or without a trailing slash: the path comes first, and the
      candidates differ from it in trailing slashes only. */
  function PathCandidates(path: string): (c: seq<string>)
    ensures |c| == if path == "" || path == "/" then 1 else 2
    ensures c[0] == if path == "" then "/" else path
    ensures forall i :: 0 <= i < |c| ==> RStrip(c[i]) == RStrip(path)
    ensures |c| == 2 ==> c[0] != c[1]
  {
    var p := if path == "" then "/" else path;
    if p == "/" then ["/"]
    else
      var stripped := RStrip(p);
      var alt := if stripped == "" then "/" else stripped;
      RStripTwice(p);
      if p == alt then [p, p + "/"] else [p, alt]
  }

  /** A path and the same path with a slash behind it have the same candidates. */
  lemma TrailingSlashIrrelevant(path: string)
    requires path != "" && path[|path| - 1] != '/'
    ensures forall c :: c in PathCandidates(path) <==> c in PathCandidates(path + "/")
  {
    assert (path + "/")[..|path|] == path;
    assert RStrip(path) == path && RStrip(path + "/") == path;
    assert PathCandidates(path) == [path, path + "/"];
    assert PathCandidates(path + "/") == [path + "/", path];
  }

  function FirstSegment(path: string): Option<string> {
    var p := Strip(path);
    if p == "" then None else Some(BeforeSlash(p))
  }

  predicate IsStatic(path: string) {
    path != "*" && !(path != "" && path[0] == '!') && '{' !in path
  }

  function FirstLiteralSegment(path: string): Option<string> {
    if path == "*" || (path != "" && path[0] == '!') then None
    else if path == "" || path[0] != '/' then None
    else
      var rest := LStrip(path);
      if rest == "" then None
      else
        var segment := BeforeSlash(rest);
        if segment == "" || '{' in segment then None else Some(segment)
  }

  // ----- stripping and splitting -----

  lemma {:induction false} LStripShape(s: string)
    ensures |LStrip(s)| <= |s|
    ensures LStrip(s) == s[|s| - |LStrip(s)|..]
    ensures forall i :: 0 <= i < |s| - |LStrip(s)| ==> s[i] == '/'
    ensures LStrip(s) != "" ==> LStrip(s)[0] != '/'
  {
    if s != "" && s[0] == '/' {
      var rest := s[1..];
      LStripShape(rest);
      var n := |rest| - |LStrip(rest)|;
      assert rest[n..] == s[n + 1..];
      assert forall i :: 0 < i < n + 1 ==> s[i] == rest[i - 1];
    }
  }

  lemma {:induction false} LStripSlashes(slashes: string, rest: string)
    requires forall i :: 0 <= i < |slashes| ==> slashes[i] == '/'
    requires rest != "" && rest[0] != '/'
    ensures LStrip(slashes + rest) == rest
  {
    if slashes == "" {
      assert slashes + rest == rest;
    } else {
      assert (slashes + rest)[1..] == slashes[1..] + rest;
      LStripSlashes(slashes[1..], rest);
    }
  }

  /** Trailing slashes are removed from the second part only, when the first does not end in one. */
  lemma {:induction false} RStripConcat(a: string, b: string)
    requires a != "" && a[|a| - 1] != '/'
    ensures RStrip(a + b) == a + RStrip(b)
    decreases |b|
  {
    if b == "" {
      assert a + b == a;
    } else {
      var s := a + b;
      assert s[|s| - 1] == b[|b| - 1];
      if b[|b| - 1] == '/' {
        assert s[..|s| - 1] == a + b[..|b| - 1];
        RStripConcat(a, b[..|b| - 1]);
      }
    }
  }

  lemma {:induction false} RStripPrefix(s: string)
    ensures |RStrip(s)| <= |s| && RStrip(s) == s[..|RStrip(s)|]
  {
    if s != "" && s[|s| - 1] == '/' {
      RStripPrefix(s[..|s| - 1]);
    }
  }

  lemma {:induction false} IndexOfPrefix(a: string, b: string, c: char)
    requires c !in a && (b == "" || b[0] == c)
    ensures IndexOf(a + b, c) == |a|
    decreases |a|
  {
    if a == "" {
      assert a + b == b;
    } else {
      assert (a + b)[1..] == a[1..] + b;
      assert (a + b)[0] == a[0];
      IndexOfPrefix(a[1..], b, c);
    }
  }

  /** A path made of slashes, a segment and a remainder that is empty or starts with a slash. */
  lemma FirstSegmentOf(slashes: string, segment: string, rest: string)
    requires forall i :: 0 <= i < |slashes| ==> slashes[i] == '/'
    requires segment != "" && '/' !in segment && (rest == "" || rest[0] == '/')
    ensures FirstSegment(slashes + segment + rest) == Some(segment)
  {
    assert slashes + segment + rest == slashes + (segment + rest);
    assert (segment + rest)[0] == segment[0];
    LStripSlashes(slashes, segment + rest);
    assert segment[|segment| - 1] in segment;
    RStripConcat(segment, rest);
    RStripPrefix(rest);
    IndexOfPrefix(segment, RStrip(rest), '/');
    assert (segment + RStrip(rest))[..|segment|] == segment;
  }

  lemma SlashFirst(l: Languages, tail: string, remainder: string)
    requires tail != "" && tail[0] == '/' && Scan(tail).Ok? && Matches(l, Scan(tail).value, remainder, false)
    ensures remainder != "" && remainder[0] == '/'
  {
    assert "/" + tail[1..] == tail;
    LiteralPrefix(l, "/", tail[1..], remainder, false);
    assert remainder[..1] == "/";
    assert remainder[0] == remainder[..1][0];
  }

  /** A path with a literal first segment is slashes, the segment, and a remainder that is empty or starts with one. */
  lemma Decomposed(path: string, segment: string) returns (slashes: string, tail: string)
    requires FirstLiteralSegment(path) == Some(segment)
    ensures path == slashes + segment + tail && '{' !in slashes + segment
    ensures forall i :: 0 <= i < |slashes| ==> slashes[i] == '/'
    ensures segment != "" && '/' !in segment && (tail == "" || tail[0] == '/')
  {
    LStripShape(path);
    var rest := LStrip(path);
    slashes, tail := path[..|path| - |rest|], rest[|segment|..];
    assert path == slashes + rest;
    assert rest == segment + tail;
    assert path == slashes + (segment + tail) == slashes + segment + tail;
  }

  /** The literal-prefix bucket never prunes a match: whatever a template with a literal first
      segment matches has that segment as its own first segment. */
  lemma PruningIsSound(l: Languages, path: string, segment: string, text: string)
    requires FirstLiteralSegment(path) == Some(segment)
    requires Scan(path).Ok? && Matches(l, Scan(path).value, text, true)
    ensures FirstSegment(text) == Some(segment)
  {
    var slashes, tail := Decomposed(path, segment);
    var prefix := slashes + segment;
    LiteralPrefix(l, prefix, tail, text, true);
    var remainder := text[|prefix|..];
    assert text == prefix + remainder;
    if tail != "" {
      SlashFirst(l, tail, remainder);
    } else {
      assert Matches(l, Scan("").value, remainder, false);
    }
    FirstSegmentOf(slashes, segment, remainder);
  }

  /** A template whose first segment is literal goes into the bucket of that segment, however many slashes it has. */
  lemma LiteralSegmentFound(slashes: string, segment: string, rest: string)
    requires slashes != "" && forall i :: 0 <= i < |slashes| ==> slashes[i] == '/'
    requires segment != "" && '/' !in segment && '{' !in segment && (rest == "" || rest[0] == '/')
    ensures FirstLiteralSegment(slashes + segment + rest) == Some(segment)
  {
    var path := slashes + segment + rest;
    assert path == slashes + (segment + rest);
    assert (segment + rest)[0] == segment[0] && segment[0] in segment;
    LStripSlashes(slashes, segment + rest);
    IndexOfPrefix(segment, rest, '/');
    assert (segment + rest)[..|segment|] == segment;
    assert path[0] == '/';
  }

  /** Beside itself, a path stands for the same path with one trailing slash, or without any; only slashes stand for
      "/". */
  lemma VariantExactly(path: string)
    requires path != "" && path != "/"
    ensures var variant := PathCandidates(path)[1];
            if path[|path| - 1] != '/' then variant == path + "/"
            else variant == (if RStrip(path) == "" then "/" else RStrip(path))
  {
    RStripTwice(path);
    if path[|path| - 1] == '/' {
      RStripShape(path);
    }
  }

  lemma {:induction false} RStripShape(s: string)
    ensures RStrip(s) != "" ==> RStrip(s)[|RStrip(s)| - 1] != '/'
  {
    if s != "" && s[|s| - 1] == '/' {
      RStripShape(s[..|s| - 1]);
    }
  }

  /** A path of slashes only has no first segment. */
  lemma {:induction false} NoSegment(slashes: string)
    requires forall i :: 0 <= i < |slashes| ==> slashes[i] == '/'
    ensures LStrip(slashes) == "" && FirstSegment(slashes) == None
  {
    if slashes != "" {
      NoSegment(slashes[1..]);
    }
  }
}
