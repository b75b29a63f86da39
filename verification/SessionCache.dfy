// The cache of inactive transport sessions: a bounded recency list with an index by key id.
module SessionCache {
  import opened Prelude
  import opened Symbols
  import opened KdcTables

  datatype Session = Session(domain: string, keyId: KeyId, encryptionType: int, root64: Octets)

  /** Least recently touched first; a session is filed under its own domain. */
  type Recency = seq<Session>

  function Without(list: Recency, domain: string): Recency {
    if list == [] then []
    else if list[0].domain == domain then Without(list[1..], domain)
    else [list[0]] + Without(list[1..], domain)
  }

  function WithoutKey(list: Recency, keyId: KeyId): Recency {
    if list == [] then []
    else if list[0].keyId == keyId then WithoutKey(list[1..], keyId)
    else [list[0]] + WithoutKey(list[1..], keyId)
  }

  function FindDomain(list: Recency, domain: string): Option<Session> {
    if list == [] then None else if list[0].domain == domain then Some(list[0]) else FindDomain(list[1..], domain)
  }

  function FindKey(list: Recency, keyId: KeyId): Option<Session> {
    if list == [] then None else if list[0].keyId == keyId then Some(list[0]) else FindKey(list[1..], keyId)
  }

  function Limit(maximum: int): (n: nat)
    ensures n >= 1
    ensures maximum >= 1 ==> n == maximum
    ensures maximum < 1 ==> n == 1
  {
    if maximum < 1 then 1 else maximum
  }

  function Newest(list: Recency, n: nat): Recency {
    if |list| <= n then list else list[|list| - n..]
  }

  /** Sessions without a domain, without encryption or without a full root are not kept. */
  predicate Storable(s: Session) {
    s.domain != "" && s.encryptionType != 0 && |s.root64| == 64
  }

  function Displaced(list: Recency, s: Session): Recency {
    WithoutKey(Without(list, s.domain), s.keyId)
  }

  function Remembered(list: Recency, s: Session, maximum: int): Recency {
    if Storable(s) then Newest(Displaced(list, s) + [s], Limit(maximum)) else list
  }

  function Touched(list: Recency, found: Option<Session>): Recency {
    if found.None? then list else Without(list, found.value.domain) + [found.value]
  }

  datatype Op =
    | Remember(session: Session, maximum: int)
    | GetByDomain(domain: string)
    | GetByKeyId(keyId: KeyId)
    | DeleteDomain(domain: string)
    | DeleteKeyId(keyId: KeyId)
    | Clear

  function Step(list: Recency, op: Op): Recency {
    match op
    case Remember(s, maximum) => Remembered(list, s, maximum)
    case GetByDomain(domain) => Touched(list, FindDomain(list, domain))
    case GetByKeyId(keyId) => Touched(list, FindKey(list, keyId))
    case DeleteDomain(domain) => Without(list, domain)
    case DeleteKeyId(keyId) => WithoutKey(list, keyId)
    case Clear => []
  }

  // ----- the list on its own -----

  /** No two sessions share a domain or a key id. */
  predicate Distinct(list: Recency) {
    forall i, j :: 0 <= i < j < |list| ==> list[i].domain != list[j].domain && list[i].keyId != list[j].keyId
  }

  lemma {:induction false} WithoutMembers(list: Recency, domain: string)
    ensures forall s :: s in Without(list, domain) <==> s in list && s.domain != domain
    ensures Distinct(list) ==> Distinct(Without(list, domain))
  {
    if list != [] {
      WithoutMembers(list[1..], domain);
      assert list == [list[0]] + list[1..];
      if Distinct(list) {
        assert Distinct(list[1..]) by {
          assert forall i :: 0 <= i < |list[1..]| ==> list[1..][i] == list[i + 1];
        }
        forall s | s in list[1..] ensures s.domain != list[0].domain && s.keyId != list[0].keyId {
          var i :| 0 <= i < |list[1..]| && list[1..][i] == s;
          assert list[i + 1] == s;
        }
        assert forall i :: 0 <= i < |Without(list[1..], domain)| ==> Without(list[1..], domain)[i] in list[1..];
      }
    }
  }

  lemma {:induction false} WithoutKeyMembers(list: Recency, keyId: KeyId)
    ensures forall s :: s in WithoutKey(list, keyId) <==> s in list && s.keyId != keyId
    ensures Distinct(list) ==> Distinct(WithoutKey(list, keyId))
  {
    if list != [] {
      WithoutKeyMembers(list[1..], keyId);
      assert list == [list[0]] + list[1..];
      if Distinct(list) {
        assert Distinct(list[1..]) by {
          assert forall i :: 0 <= i < |list[1..]| ==> list[1..][i] == list[i + 1];
        }
        forall s | s in list[1..] ensures s.domain != list[0].domain && s.keyId != list[0].keyId {
          var i :| 0 <= i < |list[1..]| && list[1..][i] == s;
          assert list[i + 1] == s;
        }
        assert forall i :: 0 <= i < |WithoutKey(list[1..], keyId)| ==> WithoutKey(list[1..], keyId)[i] in list[1..];
      }
    }
  }

  lemma {:induction false} FindDomainFinds(list: Recency, domain: string)
    ensures FindDomain(list, domain).Some?
            ==> FindDomain(list, domain).value in list && FindDomain(list, domain).value.domain == domain
    ensures FindDomain(list, domain).None? ==> forall s :: s in list ==> s.domain != domain
  {
    if list != [] {
      FindDomainFinds(list[1..], domain);
      assert list == [list[0]] + list[1..];
    }
  }

  lemma {:induction false} FindKeyFinds(list: Recency, keyId: KeyId)
    ensures FindKey(list, keyId).Some?
            ==> FindKey(list, keyId).value in list && FindKey(list, keyId).value.keyId == keyId
    ensures FindKey(list, keyId).None? ==> forall s :: s in list ==> s.keyId != keyId
  {
    if list != [] {
      FindKeyFinds(list[1..], keyId);
      assert list == [list[0]] + list[1..];
    }
  }

  /** In a distinct list, removing by key id removes what is filed under the domain found for it. */
  lemma {:induction false} SameRemoval(list: Recency, s: Session)
    requires Distinct(list) && s in list
    ensures Without(list, s.domain) == WithoutKey(list, s.keyId)
    ensures FindDomain(list, s.domain) == Some(s) && FindKey(list, s.keyId) == Some(s)
  {
    var rest := list[1..];
    assert forall i :: 0 <= i < |rest| ==> rest[i] == list[i + 1];
    if list[0] == s {
      NothingToRemove(rest, s);
    } else {
      var i :| 0 <= i < |list| && list[i] == s;
      assert rest[i - 1] == s;
      SameRemoval(rest, s);
    }
  }

  lemma {:induction false} NothingToRemove(list: Recency, s: Session)
    requires forall x :: x in list ==> x.domain != s.domain && x.keyId != s.keyId
    ensures Without(list, s.domain) == list && WithoutKey(list, s.keyId) == list
  {
    if list != [] {
      assert forall x :: x in list[1..] ==> x in list;
      assert list[0] in list;
      NothingToRemove(list[1..], s);
    }
  }

  lemma AppendDistinct(list: Recency, s: Session)
    requires Distinct(list) && forall x :: x in list ==> x.domain != s.domain && x.keyId != s.keyId
    ensures Distinct(list + [s])
  {
    assert forall i :: 0 <= i < |list| ==> list[i] in list;
  }

  lemma DisplacedMembers(list: Recency, s: Session)
    ensures forall x :: x in Displaced(list, s) <==> x in list && x.domain != s.domain && x.keyId != s.keyId
    ensures Distinct(list) ==> Distinct(Displaced(list, s)) && Distinct(Displaced(list, s) + [s])
  {
    WithoutMembers(list, s.domain);
    WithoutKeyMembers(Without(list, s.domain), s.keyId);
    if Distinct(list) {
      AppendDistinct(Displaced(list, s), s);
    }
  }

  /** Every operation keeps domains and key ids pairwise different. */
  lemma StepKeepsDistinct(list: Recency, op: Op)
    requires Distinct(list)
    ensures Distinct(Step(list, op))
  {
    if op.Remember? {
      DisplacedMembers(list, op.session);
    } else if op.DeleteDomain? {
      WithoutMembers(list, op.domain);
    } else if op.DeleteKeyId? {
      WithoutKeyMembers(list, op.keyId);
    } else if op.GetByDomain? {
      FindDomainFinds(list, op.domain);
      TouchKeepsDistinct(list, FindDomain(list, op.domain));
    } else if op.GetByKeyId? {
      FindKeyFinds(list, op.keyId);
      TouchKeepsDistinct(list, FindKey(list, op.keyId));
    }
  }

  lemma TouchKeepsDistinct(list: Recency, found: Option<Session>)
    requires Distinct(list) && (found.Some? ==> found.value in list)
    ensures Distinct(Touched(list, found))
  {
    if found.Some? {
      var s := found.value;
      WithoutMembers(list, s.domain);
      SameRemoval(list, s);
      WithoutKeyMembers(list, s.keyId);
      AppendDistinct(Without(list, s.domain), s);
    }
  }

  // ----- the cache object -----

  /** The key-id index and the sessions are inverse to each other. */
  ghost predicate Indexed(list: Recency, byKeyId: map<KeyId, string>) {
    && (forall s :: s in list ==> s.keyId in byKeyId && byKeyId[s.keyId] == s.domain)
    && (forall k :: k in byKeyId ==> exists s :: s in list && s.keyId == k)
  }

  class InactiveSessions {
    var sessions: Recency
    var byKeyId: map<KeyId, string>

    ghost predicate Valid()
      reads this
    {
      Distinct(sessions) && Indexed(sessions, byKeyId)
    }

    constructor ()
      ensures Valid() && sessions == []
    {
      sessions := [];
      byKeyId := map[];
    }

    method Remember(session: Session, maximum: int)
      requires Valid()
      modifies this
      ensures Valid() && sessions == Step(old(sessions), Op.Remember(session, maximum))
    {
      if session.domain == "" || session.encryptionType == 0 || |session.root64| != 64 {
        return;
      }
      DisplacedMembers(sessions, session);
      WithoutMembers(sessions, session.domain);
      PopDomain(session.domain);
      PopKey(session.keyId, session.domain);
      InsertKeeps(sessions, byKeyId, session);
      sessions := sessions + [session];
      byKeyId := byKeyId[session.keyId := session.domain];
      Evict(if maximum < 1 then 1 else maximum);
    }

    /** The domain's earlier session makes room. */
    method PopDomain(domain: string)
      requires Valid()
      modifies this
      ensures Valid() && sessions == Without(old(sessions), domain)
    {
      FindDomainFinds(sessions, domain);
      WithoutMembers(sessions, domain);
      var existing := FindDomain(sessions, domain);
      if existing.Some? {
        SameRemoval(sessions, existing.value);
        WithoutKeyMembers(sessions, existing.value.keyId);
      }
      sessions := Without(sessions, domain);
      if existing.Some? {
        byKeyId := byKeyId - {existing.value.keyId};
      }
    }

    /** The key id's earlier session makes room. */
    method PopKey(keyId: KeyId, domain: string)
      requires Valid() && forall s :: s in sessions ==> s.domain != domain
      modifies this
      ensures Valid() && sessions == WithoutKey(old(sessions), keyId)
    {
      WithoutKeyMembers(sessions, keyId);
      var previous := if keyId in byKeyId then Some(byKeyId[keyId]) else None;
      byKeyId := byKeyId - {keyId};
      if previous.Some? {
        ghost var s :| s in sessions && s.keyId == keyId;
        SameRemoval(sessions, s);
        if previous.value != domain {
          sessions := Without(sessions, previous.value);
        }
      } else {
        NoSuchKey(sessions, keyId);
      }
    }

    method Evict(limit: nat)
      requires Valid() && limit >= 1
      modifies this
      ensures Valid() && sessions == Newest(old(sessions), limit)
    {
      while |sessions| > limit
        invariant Valid() && |sessions| <= |old(sessions)| && sessions == old(sessions)[|old(sessions)| - |sessions|..]
        invariant |sessions| < |old(sessions)| ==> |sessions| >= limit
        decreases |sessions|
      {
        EvictOldest();
      }
    }

    method EvictOldest()
      requires Valid() && sessions != []
      modifies this
      ensures Valid() && sessions == old(sessions)[1..]
    {
      var expired := sessions[0];
      EvictFirst(sessions, byKeyId);
      sessions := sessions[1..];
      if expired.keyId in byKeyId && byKeyId[expired.keyId] == expired.domain {
        byKeyId := byKeyId - {expired.keyId};
      }
    }

    method LookUpByDomain(domain: string) returns (r: Option<Session>)
      requires Valid()
      modifies this`sessions
      ensures Valid() && r == FindDomain(old(sessions), domain)
      ensures sessions == Step(old(sessions), Op.GetByDomain(domain))
    {
      FindDomainFinds(sessions, domain);
      r := FindDomain(sessions, domain);
      if r.None? {
        return;
      }
      TouchKeeps(sessions, byKeyId, r.value);
      sessions := Without(sessions, domain) + [r.value];
    }

    method LookUpByKeyId(keyId: KeyId) returns (r: Option<Session>)
      requires Valid()
      modifies this`sessions
      ensures Valid() && r == FindKey(old(sessions), keyId)
      ensures sessions == Step(old(sessions), Op.GetByKeyId(keyId))
    {
      FindKeyFinds(sessions, keyId);
      if keyId !in byKeyId {
        return None;
      }
      var domain := byKeyId[keyId];
      ghost var s :| s in sessions && s.keyId == keyId;
      SameRemoval(sessions, s);
      r := FindDomain(sessions, domain);
      if r.None? {
        // The index never dangles.
        assert false;
      }
      TouchKeeps(sessions, byKeyId, r.value);
      sessions := Without(sessions, domain) + [r.value];
    }

    method DeleteByDomain(domain: string)
      requires Valid()
      modifies this
      ensures Valid() && sessions == Step(old(sessions), DeleteDomain(domain))
    {
      FindDomainFinds(sessions, domain);
      WithoutMembers(sessions, domain);
      var session := FindDomain(sessions, domain);
      ghost var before := sessions;
      if session.Some? {
        SameRemoval(before, session.value);
        WithoutKeyMembers(before, session.value.keyId);
      }
      sessions := Without(sessions, domain);
      if session.Some? && session.value.keyId in byKeyId && byKeyId[session.value.keyId] == domain {
        byKeyId := byKeyId - {session.value.keyId};
      }
    }

    method DeleteByKeyId(keyId: KeyId)
      requires Valid()
      modifies this
      ensures Valid() && sessions == Step(old(sessions), DeleteKeyId(keyId))
    {
      WithoutKeyMembers(sessions, keyId);
      var domain := if keyId in byKeyId then Some(byKeyId[keyId]) else None;
      byKeyId := byKeyId - {keyId};
      if domain.Some? {
        ghost var s :| s in sessions && s.keyId == keyId;
        SameRemoval(sessions, s);
        sessions := Without(sessions, domain.value);
      } else {
        NoSuchKey(sessions, keyId);
      }
    }

    method ClearAll()
      modifies this
      ensures Valid() && sessions == []
    {
      sessions := [];
      byKeyId := map[];
    }
  }

  lemma {:induction false} NoSuchKey(list: Recency, keyId: KeyId)
    requires forall s :: s in list ==> s.keyId != keyId
    ensures WithoutKey(list, keyId) == list
  {
    if list != [] {
      assert list[0] in list;
      assert forall s :: s in list[1..] ==> s in list;
      NoSuchKey(list[1..], keyId);
    }
  }

  lemma InsertKeeps(list: Recency, byKeyId: map<KeyId, string>, s: Session)
    requires Distinct(list) && Indexed(list, byKeyId)
    requires forall x :: x in list ==> x.domain != s.domain && x.keyId != s.keyId
    ensures Distinct(list + [s]) && Indexed(list + [s], byKeyId[s.keyId := s.domain])
  {
    AppendDistinct(list, s);
    assert s in list + [s];
    forall k | k in byKeyId ensures exists x :: x in list + [s] && x.keyId == k {
      var x :| x in list && x.keyId == k;
      assert x in list + [s];
    }
  }

  lemma FirstIsApart(list: Recency)
    requires list != [] && Distinct(list)
    ensures Distinct(list[1..])
    ensures forall s :: s in list[1..] ==> s in list && s.keyId != list[0].keyId
    ensures forall s :: s in list ==> s == list[0] || s in list[1..]
  {
    var rest := list[1..];
    assert forall i :: 0 <= i < |rest| ==> rest[i] == list[i + 1];
    assert list == [list[0]] + rest;
  }

  lemma EvictFirst(list: Recency, byKeyId: map<KeyId, string>)
    requires list != [] && Distinct(list) && Indexed(list, byKeyId)
    ensures Distinct(list[1..]) && Indexed(list[1..], byKeyId - {list[0].keyId})
    ensures list[0].keyId in byKeyId && byKeyId[list[0].keyId] == list[0].domain
  {
    FirstIsApart(list);
    assert list[0] in list;
    forall k | k in byKeyId && k != list[0].keyId ensures exists s :: s in list[1..] && s.keyId == k {
      var s :| s in list && s.keyId == k;
      assert s in list[1..];
    }
  }

  lemma TouchKeeps(list: Recency, byKeyId: map<KeyId, string>, s: Session)
    requires Distinct(list) && Indexed(list, byKeyId) && s in list
    ensures Distinct(Touched(list, Some(s))) && Indexed(Touched(list, Some(s)), byKeyId)
  {
    TouchKeepsDistinct(list, Some(s));
    WithoutMembers(list, s.domain);
    SameRemoval(list, s);
    WithoutKeyMembers(list, s.keyId);
    var after := Touched(list, Some(s));
    assert s in after;
    forall k | k in byKeyId ensures exists x :: x in after && x.keyId == k {
      var x :| x in list && x.keyId == k;
      assert x in after;
    }
  }

  // ----- whole histories -----

  /** The list a history of operations leaves, from an empty cache. */
  function Run(ops: seq<Op>): Recency {
    if ops == [] then [] else Step(Run(ops[..|ops| - 1]), ops[|ops| - 1])
  }

  /** The domain an operation touches: one it stores, or one it finds. */
  function TouchedBy(list: Recency, op: Op): Option<string> {
    match op
    case Remember(s, _) => if Storable(s) then Some(s.domain) else None
    case GetByDomain(domain) => DomainOf(FindDomain(list, domain))
    case GetByKeyId(keyId) => DomainOf(FindKey(list, keyId))
    case _ => None
  }

  function DomainOf(s: Option<Session>): Option<string> {
    if s.Some? then Some(s.value.domain) else None
  }

  /** When a domain was last touched, read off the history alone; -1 for never. */
  function LastTouch(ops: seq<Op>, domain: string): (n: int)
    ensures -1 <= n < |ops|
  {
    if ops == [] then -1
    else
      var earlier := ops[..|ops| - 1];
      if TouchedBy(Run(earlier), ops[|ops| - 1]) == Some(domain) then |ops| - 1 else LastTouch(earlier, domain)
  }

  predicate Ranked(rank: string -> int, list: Recency) {
    forall i, j :: 0 <= i < j < |list| ==> rank(list[i].domain) < rank(list[j].domain)
  }

  predicate InOrder(ops: seq<Op>, list: Recency) {
    Ranked(domain => LastTouch(ops, domain), list)
  }

  lemma {:induction false} WithoutRanked(rank: string -> int, list: Recency, domain: string)
    requires Ranked(rank, list)
    ensures Ranked(rank, Without(list, domain))
  {
    if list != [] {
      var rest := list[1..];
      var kept := Without(rest, domain);
      assert forall i :: 0 <= i < |rest| ==> rest[i] == list[i + 1];
      WithoutRanked(rank, rest, domain);
      WithoutMembers(rest, domain);
      forall i | 0 <= i < |kept| ensures rank(list[0].domain) < rank(kept[i].domain) {
        assert kept[i] in rest;
      }
    }
  }

  lemma {:induction false} WithoutKeyRanked(rank: string -> int, list: Recency, keyId: KeyId)
    requires Ranked(rank, list)
    ensures Ranked(rank, WithoutKey(list, keyId))
  {
    if list != [] {
      var rest := list[1..];
      var kept := WithoutKey(rest, keyId);
      assert forall i :: 0 <= i < |rest| ==> rest[i] == list[i + 1];
      WithoutKeyRanked(rank, rest, keyId);
      WithoutKeyMembers(rest, keyId);
      forall i | 0 <= i < |kept| ensures rank(list[0].domain) < rank(kept[i].domain) {
        assert kept[i] in rest;
      }
    }
  }

  lemma WithoutInOrder(ops: seq<Op>, list: Recency, domain: string)
    requires InOrder(ops, list)
    ensures InOrder(ops, Without(list, domain))
  {
    WithoutRanked(d => LastTouch(ops, d), list, domain);
  }

  lemma WithoutKeyInOrder(ops: seq<Op>, list: Recency, keyId: KeyId)
    requires InOrder(ops, list)
    ensures InOrder(ops, WithoutKey(list, keyId))
  {
    WithoutKeyRanked(d => LastTouch(ops, d), list, keyId);
  }

  /** One more operation leaves the times of the domains it does not touch. */
  lemma LaterTouch(ops: seq<Op>, op: Op, domain: string)
    ensures LastTouch(ops + [op], domain) ==
            if TouchedBy(Run(ops), op) == Some(domain) then |ops| else LastTouch(ops, domain)
  {
    assert (ops + [op])[..|ops|] == ops;
  }

  lemma StillInOrder(ops: seq<Op>, op: Op, list: Recency)
    requires InOrder(ops, list) && forall s :: s in list ==> TouchedBy(Run(ops), op) != Some(s.domain)
    ensures InOrder(ops + [op], list)
  {
    forall i | 0 <= i < |list| ensures LastTouch(ops + [op], list[i].domain) == LastTouch(ops, list[i].domain) {
      assert list[i] in list;
      LaterTouch(ops, op, list[i].domain);
    }
  }

  lemma TouchedLast(ops: seq<Op>, op: Op, list: Recency, s: Session)
    requires InOrder(ops, list) && TouchedBy(Run(ops), op) == Some(s.domain)
    requires forall x :: x in list ==> x.domain != s.domain
    ensures InOrder(ops + [op], list + [s])
  {
    StillInOrder(ops, op, list);
    LaterTouch(ops, op, s.domain);
    forall i | 0 <= i < |list| ensures LastTouch(ops + [op], list[i].domain) < |ops| {
      assert list[i] in list;
      LaterTouch(ops, op, list[i].domain);
    }
  }

  lemma NewestInOrder(ops: seq<Op>, list: Recency, n: nat)
    requires InOrder(ops, list)
    ensures InOrder(ops, Newest(list, n))
  {
  }

  lemma StepInOrder(ops: seq<Op>, op: Op)
    requires Distinct(Run(ops)) && InOrder(ops, Run(ops))
    ensures InOrder(ops + [op], Step(Run(ops), op))
  {
    var list := Run(ops);
    if op.Remember? {
      if Storable(op.session) {
        var s := op.session;
        WithoutInOrder(ops, list, s.domain);
        WithoutKeyInOrder(ops, Without(list, s.domain), s.keyId);
        DisplacedMembers(list, s);
        TouchedLast(ops, op, Displaced(list, s), s);
        NewestInOrder(ops + [op], Displaced(list, s) + [s], Limit(op.maximum));
      } else {
        StillInOrder(ops, op, list);
      }
    } else if op.GetByDomain? {
      FindDomainFinds(list, op.domain);
      FoundInOrder(ops, op, FindDomain(list, op.domain));
    } else if op.GetByKeyId? {
      FindKeyFinds(list, op.keyId);
      FoundInOrder(ops, op, FindKey(list, op.keyId));
    } else if op.DeleteDomain? {
      StillInOrder(ops, op, list);
      WithoutInOrder(ops + [op], list, op.domain);
    } else if op.DeleteKeyId? {
      StillInOrder(ops, op, list);
      WithoutKeyInOrder(ops + [op], list, op.keyId);
    }
  }

  lemma FoundInOrder(ops: seq<Op>, op: Op, found: Option<Session>)
    requires Distinct(Run(ops)) && InOrder(ops, Run(ops))
    requires TouchedBy(Run(ops), op) == DomainOf(found) && (found.Some? ==> found.value in Run(ops))
    ensures InOrder(ops + [op], Touched(Run(ops), found))
  {
    if found.Some? {
      WithoutInOrder(ops, Run(ops), found.value.domain);
      WithoutMembers(Run(ops), found.value.domain);
      TouchedLast(ops, op, Without(Run(ops), found.value.domain), found.value);
    } else {
      StillInOrder(ops, op, Run(ops));
    }
  }

  /** After every history the list is in the order of last touches, with one session a domain and a key id. */
  lemma {:induction false} RecencyOrder(ops: seq<Op>)
    ensures Distinct(Run(ops)) && InOrder(ops, Run(ops))
    decreases |ops|
  {
    if ops != [] {
      var earlier := ops[..|ops| - 1];
      var op := ops[|ops| - 1];
      RecencyOrder(earlier);
      StepKeepsDistinct(Run(earlier), op);
      StepInOrder(earlier, op);
      assert earlier + [op] == ops;
    }
  }

  lemma NewestKeeps(before: Recency, s: Session, n: nat)
    requires n >= 1
    ensures var after := Newest(before + [s], n);
            && s in after && |after| <= n && (forall x :: x in after && x != s ==> x in before)
            && (forall gone :: gone in before && gone !in after ==> |after| == n)
  {
    var all := before + [s];
    var after := Newest(all, n);
    assert after[|after| - 1] == s;
  }

  /** What a cut drops from the front stands before what it keeps. */
  lemma CutBefore(before: Recency, s: Session, n: nat, gone: Session, kept: Session) returns (i: nat, j: nat)
    requires n >= 1 && gone in before && gone !in Newest(before + [s], n)
    requires kept in Newest(before + [s], n) && kept != s
    ensures i < j < |before| && before[i] == gone && before[j] == kept
  {
    var all := before + [s];
    var cut := |all| - |Newest(all, n)|;
    i :| 0 <= i < |before| && before[i] == gone;
    forall m | cut <= m < |all| ensures all[m] in Newest(all, n) {
      assert Newest(all, n)[m - cut] == all[m];
    }
    assert all[i] == gone;
    var k :| 0 <= k < |Newest(all, n)| && Newest(all, n)[k] == kept;
    j := cut + k;
    assert all[j] == kept;
  }

  /** After storing a session the cache holds it, and at most the limit of that call; what went, beyond
      the sessions it displaced, was touched longer ago than everything that stayed, and only a full cache evicts. */
  lemma EvictsLeastRecent(ops: seq<Op>, s: Session, maximum: int)
    requires Storable(s)
    ensures var before, after := Displaced(Run(ops), s), Run(ops + [Remember(s, maximum)]);
            && s in after && |after| <= Limit(maximum)
            && (forall x :: x in after && x != s ==> x in before)
            && (forall gone, kept :: gone in before && gone !in after && kept in after && kept != s
                  ==> LastTouch(ops, gone.domain) < LastTouch(ops, kept.domain))
            && (forall gone :: gone in before && gone !in after ==> |after| == Limit(maximum))
  {
    var op := Remember(s, maximum);
    assert (ops + [op])[..|ops|] == ops;
    var before, after := Displaced(Run(ops), s), Run(ops + [op]);
    assert after == Newest(before + [s], Limit(maximum));
    NewestKeeps(before, s, Limit(maximum));
    RecencyOrder(ops);
    WithoutInOrder(ops, Run(ops), s.domain);
    WithoutKeyInOrder(ops, Without(Run(ops), s.domain), s.keyId);
    forall gone, kept | gone in before && gone !in after && kept in after && kept != s
      ensures LastTouch(ops, gone.domain) < LastTouch(ops, kept.domain)
    {
      var i, j := CutBefore(before, s, Limit(maximum), gone, kept);
    }
  }

  /** A session is stored exactly when it has a domain, an encrypted type and a root of 64 octets; any other call leaves
      the cache as it is. */
  lemma StoresExactly(list: Recency, s: Session, maximum: int)
    ensures var after := Step(list, Remember(s, maximum));
            if s.domain != "" && s.encryptionType != 0 && |s.root64| == 64 then after != [] && after[|after| - 1] == s
            else after == list
  {
  }

  /** With room to spare, storing removes only what shares the session's domain or its key id. */
  lemma KeepsTheOthers(list: Recency, s: Session, maximum: int)
    requires Storable(s) && |list| < maximum
    ensures forall x :: x in Step(list, Remember(s, maximum))
                        <==> x == s || (x in list && x.domain != s.domain && x.keyId != s.keyId)
  {
    DisplacedMembers(list, s);
    WithoutShorter(list, s.domain, s.keyId);
    WithoutShorter(Without(list, s.domain), s.domain, s.keyId);
  }

  lemma {:induction false} WithoutShorter(list: Recency, domain: string, keyId: KeyId)
    ensures |Without(list, domain)| <= |list| && |WithoutKey(list, keyId)| <= |list|
  {
    if list != [] {
      WithoutShorter(list[1..], domain, keyId);
    }
  }
}
