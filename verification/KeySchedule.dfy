// Transport keys of the datagram layer and the two ways they are derived.
module KeySchedule {
  import opened Symbols

  const BOOTSTRAP_INFO := "gn:DgEncryptor"
  const TRANSPORT_INFO := "gn:DgEncryptor:root64:v1"

  type Key = Octets

  datatype KeyPair = KeyPair(keyIn: Key, keyOut: Key)

  function DeriveKeys(secret: Octets, local: string, peer: string, info: string): (k: KeyPair)
    ensures |k.keyIn| == 32 && |k.keyOut| == 32
  {
    KeyPair(HkdfSha3(secret, 32, Text(peer) + Text(local), info),
            HkdfSha3(secret, 32, Text(local) + Text(peer), info))
  }

  function BootstrapKeys(sharedKey: Octets, local: string, peer: string): (k: KeyPair)
    ensures |k.keyIn| == 32 && |k.keyOut| == 32
  {
    DeriveKeys(sharedKey, local, peer, BOOTSTRAP_INFO)
  }

  /** The caller has checked that root64 is 64 octets long. */
  function TransportKeys(root64: Octets, local: string, peer: string): (k: KeyPair)
    ensures |k.keyIn| == 32 && |k.keyOut| == 32
  {
    DeriveKeys(root64, local, peer, TRANSPORT_INFO)
  }

  /** Each end sends under the key the other end receives under. */
  predicate Mirrored(a: KeyPair, b: KeyPair) {
    a.keyIn == b.keyOut && a.keyOut == b.keyIn
  }

  /** Two ends mirror each other exactly when they share the secret and agree on both concatenations. */
  lemma MirroredExactly(s1: Octets, l1: string, p1: string, s2: Octets, l2: string, p2: string, info: string)
    ensures Mirrored(DeriveKeys(s1, l1, p1, info), DeriveKeys(s2, l2, p2, info))
            <==> s1 == s2 && l1 + p1 == p2 + l2 && p1 + l1 == l2 + p2
  {
    TextConcat(l1, p1); TextConcat(p1, l1); TextConcat(l2, p2); TextConcat(p2, l2);
    var a, b := DeriveKeys(s1, l1, p1, info), DeriveKeys(s2, l2, p2, info);
    if Mirrored(a, b) {
      HkdfInjective(s1, Text(l1) + Text(p1), info, s2, Text(p2) + Text(l2), info, 32);
      HkdfInjective(s1, Text(p1) + Text(l1), info, s2, Text(l2) + Text(p2), info, 32);
      TextInjective(l1 + p1, p2 + l2);
      TextInjective(p1 + l1, l2 + p2);
    }
  }

  /** With one secret and one local name, the peers' names decide. */
  lemma MirroredSameClient(s: Octets, client: string, seen: string, server: string, info: string)
    ensures Mirrored(DeriveKeys(s, client, seen, info), DeriveKeys(s, server, client, info)) <==> seen == server
  {
    MirroredExactly(s, client, seen, s, server, client, info);
    if client + seen == client + server {
      assert (client + seen)[|client|..] == seen;
      assert (client + server)[|client|..] == server;
    }
  }

  // ----- when the two directions share one key -----

  function Repeat(word: string, times: nat): string {
    if times == 0 then "" else word + Repeat(word, times - 1)
  }

  lemma {:induction false} RepeatAdd(word: string, m: nat, n: nat)
    ensures Repeat(word, m) + Repeat(word, n) == Repeat(word, m + n)
  {
    if m == 0 {
      assert "" + Repeat(word, n) == Repeat(word, n);
    } else {
      RepeatAdd(word, m - 1, n);
      assert word + Repeat(word, m - 1) + Repeat(word, n) == word + (Repeat(word, m - 1) + Repeat(word, n));
    }
  }

  ghost predicate PowersOfOneWord(a: string, b: string) {
    exists word: string, m: nat, n: nat :: a == Repeat(word, m) && b == Repeat(word, n)
  }

  /** Two words commute exactly when both are powers of one word. */
  lemma {:induction false} CommuteExactly(a: string, b: string)
    ensures a + b == b + a <==> PowersOfOneWord(a, b)
    decreases |a| + |b|
  {
    if PowersOfOneWord(a, b) {
      var word: string, m: nat, n: nat :| a == Repeat(word, m) && b == Repeat(word, n);
      RepeatAdd(word, m, n);
      RepeatAdd(word, n, m);
    }
    if a + b == b + a {
      if a == "" {
        assert a == Repeat(b, 0) && b == Repeat(b, 1) by { assert b + "" == b; }
      } else if |a| <= |b| {
        SplitPower(a, b);
      } else {
        SplitPower(b, a);
        var word: string, m: nat, n: nat :| b == Repeat(word, m) && a == Repeat(word, n);
        assert a == Repeat(word, n) && b == Repeat(word, m);
      }
    }
  }

  lemma {:induction false} SplitPower(a: string, b: string)
    requires a + b == b + a && |a| <= |b|
    ensures PowersOfOneWord(a, b)
    decreases |a| + |b|, 0
  {
    if a == "" {
      assert a == Repeat(b, 0) && b == Repeat(b, 1) by { assert b + "" == b; }
      return;
    }
    var rest := b[|a|..];
    assert b == a + rest by {
      assert (a + b)[..|a|] == a;
      assert (b + a)[..|a|] == b[..|a|];
      assert b == b[..|a|] + b[|a|..];
    }
    assert a + rest == rest + a by {
      assert (a + b)[|a|..] == b;
      assert (b + a)[|a|..] == rest + a;
    }
    CommuteExactly(a, rest);
    var word: string, m: nat, n: nat :| a == Repeat(word, m) && rest == Repeat(word, n);
    RepeatAdd(word, m, n);
    assert b == Repeat(word, m + n);
  }

  /** Inbound and outbound keys coincide exactly when both names are repetitions of one string. */
  lemma DirectionsSeparate(secret: Octets, local: string, peer: string, info: string)
    ensures var k := DeriveKeys(secret, local, peer, info);
            k.keyIn == k.keyOut <==> PowersOfOneWord(local, peer)
  {
    CommuteExactly(local, peer);
    TextConcat(local, peer);
    TextConcat(peer, local);
    var k := DeriveKeys(secret, local, peer, info);
    if k.keyIn == k.keyOut {
      HkdfInjective(secret, Text(peer) + Text(local), info, secret, Text(local) + Text(peer), info, 32);
      TextInjective(peer + local, local + peer);
    }
  }

  /** The names "a" and "aa" give one key for both directions. */
  lemma OneKeyExample(secret: Octets, info: string)
    ensures var k := DeriveKeys(secret, "a", "aa", info);
            k.keyIn == k.keyOut
  {
    assert Repeat("a", 1) == "a" + Repeat("a", 0);
    assert Repeat("a", 2) == "a" + Repeat("a", 1);
    assert "a" == Repeat("a", 1) && "aa" == Repeat("a", 2);
    DirectionsSeparate(secret, "a", "aa", info);
  }

  // ----- what the keys are derived from -----

  /** The key of a direction is labelled by its sender and then its receiver, at both of its ends. */
  lemma DirectionLabelled(secret: Octets, sender: string, receiver: string, info: string)
    ensures DeriveKeys(secret, sender, receiver, info).keyOut == HkdfSha3(secret, 32, Text(sender + receiver), info)
    ensures DeriveKeys(secret, receiver, sender, info).keyIn == HkdfSha3(secret, 32, Text(sender + receiver), info)
    ensures BootstrapKeys(secret, sender, receiver).keyOut
            == HkdfSha3(secret, 32, Text(sender + receiver), "gn:DgEncryptor")
    ensures TransportKeys(secret, sender, receiver).keyOut
            == HkdfSha3(secret, 32, Text(sender + receiver), "gn:DgEncryptor:root64:v1")
  {
    TextConcat(sender, receiver);
  }

  /** No key of the bootstrap phase is ever a transport key, whatever secrets and names are used. */
  lemma PhasesSeparate(shared: Octets, l1: string, p1: string, root64: Octets, l2: string, p2: string)
    ensures var boot, transport := BootstrapKeys(shared, l1, p1), TransportKeys(root64, l2, p2);
            && boot.keyIn != transport.keyIn && boot.keyIn != transport.keyOut
            && boot.keyOut != transport.keyIn && boot.keyOut != transport.keyOut
  {
    assert |BOOTSTRAP_INFO| == 14 && |TRANSPORT_INFO| == 24;
    LabelsDiffer(shared, Text(p1) + Text(l1), root64, Text(p2) + Text(l2));
    LabelsDiffer(shared, Text(p1) + Text(l1), root64, Text(l2) + Text(p2));
    LabelsDiffer(shared, Text(l1) + Text(p1), root64, Text(p2) + Text(l2));
    LabelsDiffer(shared, Text(l1) + Text(p1), root64, Text(l2) + Text(p2));
  }

  lemma LabelsDiffer(s1: Octets, salt1: Octets, s2: Octets, salt2: Octets)
    ensures HkdfSha3(s1, 32, salt1, BOOTSTRAP_INFO) != HkdfSha3(s2, 32, salt2, TRANSPORT_INFO)
  {
    assert |BOOTSTRAP_INFO| == 14 && |TRANSPORT_INFO| == 24;
    if HkdfSha3(s1, 32, salt1, BOOTSTRAP_INFO) == HkdfSha3(s2, 32, salt2, TRANSPORT_INFO) {
      HkdfInjective(s1, salt1, BOOTSTRAP_INFO, s2, salt2, TRANSPORT_INFO, 32);
    }
  }
}
