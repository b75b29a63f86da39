// Which domains a certificate name covers.
module CertificateNames {

  /** The matcher of GN wildcard patterns: any relation of a pattern and a domain. */
  type Matcher = (string, string) -> bool

  /** The characters str.strip removes. */
  predicate IsSpace(c: char) {
    var n := c as int;
    || 0x9 <= n <= 0xD || 0x1C <= n <= 0x20 || n == 0x85 || n == 0xA0 || n == 0x1680
    || 0x2000 <= n <= 0x200A || n == 0x2028 || n == 0x2029 || n == 0x202F || n == 0x205F || n == 0x3000
  }

  function StripLeft(s: string): (r: string)
    ensures exists k :: 0 <= k <= |s| && r == s[k..]
  {
    if s != "" && IsSpace(s[0]) then
      var r := StripLeft(s[1..]);
      assert exists k :: 0 <= k <= |s| && r == s[k..] by {
        var k :| 0 <= k <= |s[1..]| && r == s[1..][k..];
        assert r == s[k + 1..];
      }
      r
    else
      assert s == s[0..];
      s
  }

  function StripRight(s: string): (r: string)
    ensures r <= s
  {
    if s != "" && IsSpace(s[|s| - 1]) then StripRight(s[..|s| - 1]) else s
  }

  function Strip(s: string): string {
    StripRight(StripLeft(s))
  }

  function Split(s: string): (parts: seq<string>)
    ensures |parts| > 0
  {
    if s == "" then [""]
    else
      var rest := Split(s[1..]);
      if s[0] == ',' then [""] + rest else [[s[0]] + rest[0]] + rest[1..]
  }

  predicate PatternCovers(matcher: Matcher, pattern: string, domain: string) {
    pattern != "" && (pattern == domain || ('*' in pattern && '*' !in domain && matcher(pattern, domain)))
  }

  /** Some listed pattern covers the domain. */
  predicate Covers(matcher: Matcher, name: string, domain: string) {
    exists i :: 0 <= i < |Split(name)| && PatternCovers(matcher, Strip(Split(name)[i]), domain)
  }

  method CertNameCoversDomain(matcher: Matcher, name: string, domain: string) returns (r: bool)
    ensures r == Covers(matcher, name, domain)
  {
    var parts := Split(name);
    var i := 0;
    while i < |parts|
      invariant 0 <= i <= |parts|
      invariant forall j :: 0 <= j < i ==> !PatternCovers(matcher, Strip(parts[j]), domain)
    {
      var pattern := Strip(parts[i]);
      if pattern != "" {
        if pattern == domain {
          return true;
        }
        if '*' in pattern && '*' !in domain && matcher(pattern, domain) {
          return true;
        }
      }
      i := i + 1;
    }
    return false;
  }

  lemma {:induction false} PartsOf(s: string)
    ensures forall i :: 0 <= i < |Split(s)| ==> ',' !in Split(s)[i] && forall c :: c in Split(s)[i] ==> c in s
    ensures ',' !in s ==> Split(s) == [s]
  {
    if s != "" {
      PartsOf(s[1..]);
      var rest := Split(s[1..]);
      if ',' !in s {
        assert rest == [s[1..]] && [s[0]] + s[1..] == s;
      }
      forall i | 0 <= i < |Split(s)| ensures ',' !in Split(s)[i] && forall c :: c in Split(s)[i] ==> c in s {
        if s[0] == ',' {
          assert i > 0 ==> Split(s)[i] == rest[i - 1];
        } else {
          assert i > 0 ==> Split(s)[i] == rest[i];
        }
      }
    }
  }

  lemma StripKeeps(s: string)
    ensures forall c :: c in Strip(s) ==> c in s
  {
    var l := StripLeft(s);
    var k :| 0 <= k <= |s| && l == s[k..];
    assert forall c :: c in l ==> c in s;
    assert forall c :: c in Strip(s) ==> c in l;
  }

  /** A name covers itself exactly when it is one literal or one pattern without surrounding space,
      whatever the matcher: a name that lists several domains never does. */
  lemma CoversItself(matcher: Matcher, name: string)
    ensures Covers(matcher, name, name) <==> name != "" && ',' !in name && Strip(name) == name
  {
    PartsOf(name);
    if name != "" && ',' !in name && Strip(name) == name {
      assert PatternCovers(matcher, Strip(Split(name)[0]), name);
    }
    if Covers(matcher, name, name) {
      var i :| 0 <= i < |Split(name)| && PatternCovers(matcher, Strip(Split(name)[i]), name);
      var part := Split(name)[i];
      StripKeeps(part);
      assert ',' !in Strip(part);
    }
  }

  /** A name that lists two domains does not cover itself. */
  lemma ListedNameExample(matcher: Matcher)
    ensures !Covers(matcher, "a,b", "a,b")
  {
    assert "a,b"[1] == ',';
    CoversItself(matcher, "a,b");
  }

  // ----- what a pattern covers -----

  lemma {:induction false} SplitAtComma(a: string, b: string)
    ensures Split(a + "," + b) == Split(a) + Split(b)
  {
    if a == "" {
      assert a + "," + b == "," + b;
      assert ("," + b)[1..] == b;
    } else {
      assert (a + "," + b)[1..] == a[1..] + "," + b;
      SplitAtComma(a[1..], b);
      if a[0] == ',' {
        assert Split(a + "," + b) == [""] + (Split(a[1..]) + Split(b)) == [""] + Split(a[1..]) + Split(b);
      } else {
        var rest := Split(a[1..]) + Split(b);
        assert [[a[0]] + rest[0]] + rest[1..] == [[a[0]] + Split(a[1..])[0]] + Split(a[1..])[1..] + Split(b);
      }
    }
  }

  /** A list covers what its parts cover. */
  lemma ListCovers(matcher: Matcher, a: string, b: string, domain: string)
    ensures Covers(matcher, a + "," + b, domain) <==> Covers(matcher, a, domain) || Covers(matcher, b, domain)
  {
    SplitAtComma(a, b);
    var n := |Split(a)|;
    assert forall i :: 0 <= i < n ==> (Split(a) + Split(b))[i] == Split(a)[i];
    assert forall i :: 0 <= i < |Split(b)| ==> (Split(a) + Split(b))[n + i] == Split(b)[i];
    if i :| 0 <= i < |Split(b)| && PatternCovers(matcher, Strip(Split(b)[i]), domain) {
      assert PatternCovers(matcher, Strip((Split(a) + Split(b))[n + i]), domain);
    }
    if i :| 0 <= i < |Split(a)| && PatternCovers(matcher, Strip(Split(a)[i]), domain) {
      assert PatternCovers(matcher, Strip((Split(a) + Split(b))[i]), domain);
    }
  }

  /** One pattern without surrounding space: a literal covers itself alone, a wildcard covers itself and, beyond that,
      the literal domains the matcher gives it. */
  lemma SinglePatternCovers(matcher: Matcher, pattern: string, domain: string)
    requires pattern != "" && ',' !in pattern && Strip(pattern) == pattern
    ensures '*' !in pattern ==> (Covers(matcher, pattern, domain) <==> domain == pattern)
    ensures '*' in pattern && '*' in domain ==> (Covers(matcher, pattern, domain) <==> domain == pattern)
    ensures '*' in pattern && '*' !in domain ==> (Covers(matcher, pattern, domain) <==> matcher(pattern, domain))
  {
    PartsOf(pattern);
    assert Split(pattern) == [pattern];
    assert Covers(matcher, pattern, domain) <==> PatternCovers(matcher, pattern, domain) by {
      assert Strip(Split(pattern)[0]) == pattern;
    }
  }

  lemma {:induction false} StripLeftSpaces(spaces: string, rest: string)
    requires forall c :: c in spaces ==> IsSpace(c)
    requires rest == "" || !IsSpace(rest[0])
    ensures StripLeft(spaces + rest) == rest
  {
    if spaces == "" {
      assert spaces + rest == rest;
    } else {
      assert spaces[0] in spaces;
      assert forall c :: c in spaces[1..] ==> c in spaces;
      assert (spaces + rest)[1..] == spaces[1..] + rest;
      StripLeftSpaces(spaces[1..], rest);
    }
  }

  lemma {:induction false} StripRightSpaces(rest: string, spaces: string)
    requires forall c :: c in spaces ==> IsSpace(c)
    requires rest == "" || !IsSpace(rest[|rest| - 1])
    ensures StripRight(rest + spaces) == rest
    decreases |spaces|
  {
    if spaces == "" {
      assert rest + spaces == rest;
    } else {
      var n := |spaces| - 1;
      assert spaces[n] in spaces;
      assert forall c :: c in spaces[..n] ==> c in spaces;
      assert (rest + spaces)[..|rest + spaces| - 1] == rest + spaces[..n];
      StripRightSpaces(rest, spaces[..n]);
    }
  }

  /** Space around a part is removed, and nothing else. */
  lemma StripExactly(left: string, core: string, right: string)
    requires (forall c :: c in left ==> IsSpace(c)) && (forall c :: c in right ==> IsSpace(c))
    requires core != "" && !IsSpace(core[0]) && !IsSpace(core[|core| - 1])
    ensures Strip(left + core + right) == core
  {
    assert left + core + right == left + (core + right);
    assert (core + right)[0] == core[0];
    StripLeftSpaces(left, core + right);
    StripRightSpaces(core, right);
  }

  /** The characters of class space, one by one; letters, digits and the marks of a domain are not among them. */
  lemma Spaces()
    ensures forall c: char :: IsSpace(c) <==> c as int in {
              0x9, 0xA, 0xB, 0xC, 0xD, 0x1C, 0x1D, 0x1E, 0x1F, 0x20, 0x85, 0xA0, 0x1680, 0x2000, 0x2001, 0x2002, 0x2003,
              0x2004, 0x2005, 0x2006, 0x2007, 0x2008, 0x2009, 0x200A, 0x2028, 0x2029, 0x202F, 0x205F, 0x3000}
    ensures IsSpace(' ') && IsSpace('\t') && IsSpace('\n') && IsSpace('\r')
    ensures forall c: char :: 'a' <= c <= 'z' || 'A' <= c <= 'Z' || '0' <= c <= '9' ==> !IsSpace(c)
    ensures !IsSpace('.') && !IsSpace('-') && !IsSpace('*') && !IsSpace(':') && !IsSpace(',')
  {
  }
}
