// The local key tables of the key distribution client.
module KdcTables {
  import opened Prelude
  import opened Symbols

  type KeyId = (int, int)

  /** Domains in insertion order with their key ids, and the keys. */
  datatype KdcTable = KdcTable(domains: seq<(string, KeyId)>, keys: map<KeyId, Octets>) {

    function KeyOf(id: KeyId): Option<Octets> {
      if id in keys then Some(keys[id]) else None
    }

    function DomainById(id: KeyId): Option<string> {
      FirstDomain(domains, id)
    }

    function KeyIdByDomain(domain: string): Option<KeyId> {
      FirstKeyId(domains, domain)
    }
  }

  function FirstDomain(domains: seq<(string, KeyId)>, id: KeyId): Option<string> {
    if domains == [] then None
    else if domains[0].1 == id then Some(domains[0].0)
    else FirstDomain(domains[1..], id)
  }

  function FirstKeyId(domains: seq<(string, KeyId)>, domain: string): Option<KeyId> {
    if domains == [] then None
    else if domains[0].0 == domain then Some(domains[0].1)
    else FirstKeyId(domains[1..], domain)
  }

  predicate NodeKey(id: KeyId) {
    id.0 == 252 || id.0 == 253
  }

  /** The domain under a key id is that of the first entry with the id, and the other way round. */
  lemma {:induction false} FirstEntries(domains: seq<(string, KeyId)>, id: KeyId, domain: string)
    ensures FirstDomain(domains, id) == Some(domain)
            <==> exists i :: && 0 <= i < |domains| && domains[i] == (domain, id)
                             && forall j :: 0 <= j < i ==> domains[j].1 != id
    ensures FirstDomain(domains, id) == None <==> forall i :: 0 <= i < |domains| ==> domains[i].1 != id
    ensures FirstKeyId(domains, domain) == Some(id)
            <==> exists i :: && 0 <= i < |domains| && domains[i] == (domain, id)
                             && forall j :: 0 <= j < i ==> domains[j].0 != domain
    ensures FirstKeyId(domains, domain) == None <==> forall i :: 0 <= i < |domains| ==> domains[i].0 != domain
  {
    if domains != [] {
      var rest := domains[1..];
      FirstEntries(rest, id, domain);
      assert forall i :: 0 <= i < |rest| ==> rest[i] == domains[i + 1];
      assert forall i :: 0 < i < |domains| ==> domains[i] == rest[i - 1];
      if domains[0].1 != id && FirstDomain(rest, id) == Some(domain) {
        var i :| 0 <= i < |rest| && rest[i] == (domain, id) && forall j :: 0 <= j < i ==> rest[j].1 != id;
        assert domains[i + 1] == (domain, id) && forall j :: 0 <= j < i + 1 ==> domains[j].1 != id;
      }
      if domains[0].0 != domain && FirstKeyId(rest, domain) == Some(id) {
        var i :| 0 <= i < |rest| && rest[i] == (domain, id) && forall j :: 0 <= j < i ==> rest[j].0 != domain;
        assert domains[i + 1] == (domain, id) && forall j :: 0 <= j < i + 1 ==> domains[j].0 != domain;
      }
    }
  }

  /** The node key ids are those of types 252 and 253. */
  lemma NodeKeysExactly(n: int, t: int)
    ensures NodeKey((252, n)) && NodeKey((253, n)) && (t != 252 && t != 253 ==> !NodeKey((t, n)))
  {
  }
}
