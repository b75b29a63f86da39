// Post-quantum server certificates and the dictionaries they are kept in.
module Certificate {
  import opened Prelude
  import opened Symbols

  /** A wall-clock value with its offset from UTC, when it has one. */
  datatype DateTime = Naive(instant: int) | Aware(instant: int, offset: int)

  function Utc(t: DateTime): DateTime {
    Aware(t.instant, 0)
  }

  /** Serializable values; a dictionary keeps its insertion order. */
  datatype Value =
    | VInt(n: int)
    | VBool(b: bool)
    | VStr(s: string)
    | VBytes(o: Octets)
    | VTime(t: DateTime)
    | VDict(entries: Dict)
    | VOther(tag: nat)

  type Dict = seq<(string, Value)>

  function Get(d: Dict, key: string): Option<Value> {
    if d == [] then None else if d[0].0 == key then Some(d[0].1) else Get(d[1..], key)
  }

  /** The serializer of the wire format, of which only this is used: it can be undone, and it writes something. */
  datatype Serializer = Serializer(dump: Value -> Octets, load: Octets -> Option<Value>)

  ghost predicate Lawful(s: Serializer) {
    forall v: Value :: s.load(s.dump(v)) == Some(v) && s.dump(v) != []
  }

  // ----- algorithm names -----

  function FoldChar(c: char): char {
    if 'A' <= c <= 'Z' then ((c as int) + 32) as char else c
  }

  function Casefold(name: string): (r: string)
    ensures |r| == |name|
    ensures forall i :: 0 <= i < |name| ==> r[i] == FoldChar(name[i])
  {
    seq(|name|, i requires 0 <= i < |name| => FoldChar(name[i]))
  }

  const ALIASES: map<string, string> :=
    map["dilithium2" := "ml-dsa-44", "dilithium3" := "ml-dsa-65", "dilithium5" := "ml-dsa-87"]

  function Normalize(name: string): string {
    var folded := Casefold(name);
    if folded in ALIASES then ALIASES[folded] else folded
  }

  predicate LowerCase(name: string) {
    forall i :: 0 <= i < |name| ==> !('A' <= name[i] <= 'Z')
  }

  lemma NormalizeTwice(name: string)
    ensures Normalize(Normalize(name)) == Normalize(name)
    ensures name != "" ==> Normalize(name) != ""
  {
    var folded := Casefold(name);
    var n := Normalize(name);
    assert LowerCase(folded);
    if folded in ALIASES {
      assert n == "ml-dsa-44" || n == "ml-dsa-65" || n == "ml-dsa-87";
      assert |n| == 9;
      assert LowerCase(n);
    }
    assert Casefold(n) == n;
    assert n !in ALIASES by {
      assert |"dilithium2"| == 10 && |"dilithium3"| == 10 && |"dilithium5"| == 10;
    }
  }

  /** Names are compared without regard to the case of ASCII letters. */
  lemma CaseIgnored(a: string, b: string)
    requires |a| == |b|
    requires forall i :: 0 <= i < |a| ==>
               || a[i] == b[i]
               || ('A' <= a[i] <= 'Z' && b[i] as int == a[i] as int + 32)
               || ('A' <= b[i] <= 'Z' && a[i] as int == b[i] as int + 32)
    ensures Normalize(a) == Normalize(b)
  {
    assert Casefold(a) == Casefold(b);
  }

  /** The names of the competition stand for those of the standard, and every other lower-case name for itself. */
  lemma OldNames(name: string)
    ensures Normalize("dilithium2") == "ml-dsa-44" && Normalize("dilithium3") == "ml-dsa-65"
    ensures Normalize("dilithium5") == "ml-dsa-87"
    ensures LowerCase(name) && name !in {"dilithium2", "dilithium3", "dilithium5"} ==> Normalize(name) == name
  {
    assert Casefold("dilithium2") == "dilithium2";
    assert Casefold("dilithium3") == "dilithium3";
    assert Casefold("dilithium5") == "dilithium5";
    if LowerCase(name) {
      assert Casefold(name) == name;
    }
    assert "dilithium2"[9] == '2' && "dilithium3"[9] == '3' && "dilithium5"[9] == '5';
  }

  // ----- public keys -----

  type KeyTable = seq<(string, Octets)>

  function Find(d: KeyTable, name: string): (i: nat)
    ensures i <= |d|
    ensures i < |d| ==> d[i].0 == name
    ensures forall j :: 0 <= j < i ==> d[j].0 != name
  {
    if d == [] || d[0].0 == name then 0 else 1 + Find(d[1..], name)
  }

  /** Dictionary assignment: an existing key keeps its place. */
  function Put(d: KeyTable, name: string, key: Octets): KeyTable {
    var i := Find(d, name);
    if i < |d| then d[i := (name, key)] else d + [(name, key)]
  }

  /** The keys under their normalized names, entered in order; None when a name or a key is empty. */
  function Normalized(seen: KeyTable, given: KeyTable): Option<KeyTable>
    decreases |given|
  {
    if given == [] then Some(seen)
    else if given[0].0 == "" || given[0].1 == [] then None
    else Normalized(Put(seen, Normalize(given[0].0), given[0].1), given[1..])
  }

  method NormalizeKeys(given: KeyTable) returns (r: Option<KeyTable>)
    ensures r == Normalized([], given)
  {
    var seen: KeyTable := [];
    var i := 0;
    assert given[0..] == given;
    while i < |given|
      invariant 0 <= i <= |given|
      invariant Normalized([], given) == Normalized(seen, given[i..])
    {
      assert given[i..][1..] == given[i + 1..];
      var (name, key) := given[i];
      if name == "" {
        return None;
      }
      if key == [] {
        return None;
      }
      seen := Put(seen, Normalize(name), key);
      i := i + 1;
    }
    return Some(seen);
  }

  /** Normalized names, pairwise different, and no empty name or key. */
  predicate Canonical(d: KeyTable) {
    && (forall i :: 0 <= i < |d| ==> d[i].0 != "" && d[i].1 != [] && Normalize(d[i].0) == d[i].0)
    && (forall i, j :: 0 <= i < j < |d| ==> d[i].0 != d[j].0)
  }

  lemma PutCanonical(d: KeyTable, name: string, key: Octets)
    requires Canonical(d) && name != "" && key != [] && Normalize(name) == name
    ensures Canonical(Put(d, name, key))
  {
  }

  lemma {:induction false} NormalizedCanonical(seen: KeyTable, given: KeyTable)
    requires Canonical(seen) && Normalized(seen, given).Some?
    ensures Canonical(Normalized(seen, given).value)
    decreases |given|
  {
    if given != [] {
      NormalizeTwice(given[0].0);
      PutCanonical(seen, Normalize(given[0].0), given[0].1);
      NormalizedCanonical(Put(seen, Normalize(given[0].0), given[0].1), given[1..]);
    }
  }

  lemma {:induction false} KeyAt(d: KeyTable, name: string, i: nat)
    requires i < |d| && d[i].0 == name && forall j :: 0 <= j < i ==> d[j].0 != name
    ensures KeyFor(d, name) == Some(d[i].1)
    decreases i
  {
    if i > 0 {
      assert d[0].0 != name;
      assert forall j :: 0 <= j < i ==> d[1..][j] == d[j + 1];
      KeyAt(d[1..], name, i - 1);
    }
  }

  lemma {:induction false} NoKey(d: KeyTable, name: string)
    requires forall i :: 0 <= i < |d| ==> d[i].0 != name
    ensures KeyFor(d, name) == None
  {
    if d != [] {
      assert d[0].0 != name;
      assert forall i :: 0 <= i < |d[1..]| ==> d[1..][i] == d[i + 1];
      NoKey(d[1..], name);
    }
  }

  /** The key under a name is that of the first entry with the name. */
  lemma KeyForFirst(d: KeyTable, name: string)
    ensures var i := Find(d, name);
            KeyFor(d, name) == if i < |d| then Some(d[i].1) else None
  {
    var i := Find(d, name);
    if i < |d| {
      KeyAt(d, name, i);
    } else {
      NoKey(d, name);
    }
  }

  /** Entering a key gives its name that key and leaves every other name alone. */
  lemma PutGives(d: KeyTable, name: string, key: Octets, other: string)
    ensures KeyFor(Put(d, name, key), other) == if other == name then Some(key) else KeyFor(d, other)
  {
    var e := Put(d, name, key);
    KeyForFirst(d, other);
    KeyForFirst(e, other);
    var i := Find(d, name);
    assert forall j :: 0 <= j < |d| && j != i ==> e[j] == d[j];
    assert e[i] == (name, key);
    var j, k := Find(d, other), Find(e, other);
    if other == name {
      assert k == i;
    } else if j < |d| {
      assert e[j].0 == other;
      assert k == j;
    } else {
      assert k == |e|;
    }
  }

  /** The key of the last entry whose name is normalized to the one asked for. */
  function LastUnder(given: KeyTable, name: string): Option<Octets> {
    if given == [] then None
    else
      var n := |given| - 1;
      if Normalize(given[n].0) == name then Some(given[n].1) else LastUnder(given[..n], name)
  }

  lemma {:induction false} LastUnderFront(given: KeyTable, name: string)
    requires given != []
    ensures LastUnder(given, name)
            == if LastUnder(given[1..], name).Some? then LastUnder(given[1..], name)
               else if Normalize(given[0].0) == name then Some(given[0].1) else None
  {
    var n := |given| - 1;
    if n == 0 {
      assert given[..0] == [] && given[1..] == [];
    } else {
      assert given[1..][|given[1..]| - 1] == given[n];
      assert given[1..][..n - 1] == given[..n][1..];
      if Normalize(given[n].0) != name {
        LastUnderFront(given[..n], name);
      }
    }
  }

  /** In a table that goes through, a normalized name has the key that was given last under any of its spellings. */
  lemma {:induction false} LastSpellingWins(seen: KeyTable, given: KeyTable, name: string)
    requires Normalized(seen, given).Some?
    ensures KeyFor(Normalized(seen, given).value, name)
            == if LastUnder(given, name).Some? then LastUnder(given, name) else KeyFor(seen, name)
    decreases |given|
  {
    if given != [] {
      var (spelling, key) := given[0];
      LastSpellingWins(Put(seen, Normalize(spelling), key), given[1..], name);
      LastUnderFront(given, name);
      PutGives(seen, Normalize(spelling), key, name);
    }
  }

  /** The key of an algorithm is found under any spelling of it. */
  lemma SpellingIrrelevant(c: Cert, a: string, b: string)
    requires Normalize(a) == Normalize(b)
    ensures PublicKey(c, a) == PublicKey(c, b)
  {
  }

  /** A canonical table goes through unchanged. */
  lemma {:induction false} CanonicalStays(seen: KeyTable, given: KeyTable)
    requires Canonical(seen + given)
    ensures Normalized(seen, given) == Some(seen + given)
    decreases |given|
  {
    if given == [] {
      assert seen + given == seen;
    } else {
      var (name, key) := given[0];
      assert (seen + given)[|seen|] == given[0];
      assert Canonical(seen) by {
        assert forall i :: 0 <= i < |seen| ==> (seen + given)[i] == seen[i];
      }
      assert Find(seen, name) == |seen| by {
        assert forall i :: 0 <= i < |seen| ==> (seen + given)[i].0 != (seen + given)[|seen|].0;
        assert forall i :: 0 <= i < |seen| ==> (seen + given)[i] == seen[i];
      }
      assert seen + [given[0]] + given[1..] == seen + given;
      CanonicalStays(seen + [given[0]], given[1..]);
    }
  }

  // ----- certificates -----

  datatype Cert = Cert(
    centerDomain: string, keyVersion: int, name: string, publicKeys: KeyTable,
    expiresAt: DateTime, signature: Octets, sourceData: Option<Dict>)

  /** The constructor, with its checks. */
  function Make(
    centerDomain: string, keyVersion: int, name: string, publicKeys: KeyTable,
    expiresAt: DateTime, signature: Octets, sourceData: Option<Dict>): Result<Cert>
  {
    if centerDomain == "" then Err("center_domain must not be empty")
    else if keyVersion < 0 then Err("center_key_version must not be negative")
    else if name == "" then Err("name must not be empty")
    else
      var keys := Normalized([], publicKeys);
      if keys.None? then Err("public key")
      else if keys.value == [] then Err("public_keys must not be empty")
      else Ok(Cert(centerDomain, keyVersion, name, keys.value, Utc(expiresAt), signature, sourceData))
  }

  function PublicKey(c: Cert, algorithm: string): Option<Octets> {
    KeyFor(c.publicKeys, Normalize(algorithm))
  }

  function KeyFor(d: KeyTable, name: string): Option<Octets> {
    if d == [] then None else if d[0].0 == name then Some(d[0].1) else KeyFor(d[1..], name)
  }

  function DumpKeys(keys: KeyTable): (d: Dict)
    ensures |d| == |keys|
  {
    seq(|keys|, i requires 0 <= i < |keys| => (keys[i].0, VDict([("pub", VBytes(keys[i].1))])))
  }

  function DataDict(c: Cert): Dict {
    [("c", VStr(c.centerDomain)), ("c_v", VInt(c.keyVersion)), ("domain", VStr(c.name)),
     ("algs", VDict(DumpKeys(c.publicKeys))), ("exp", VTime(c.expiresAt))]
  }

  function Data(c: Cert): Dict {
    if c.sourceData.Some? then c.sourceData.value else DataDict(c)
  }

  function UnsignedBytes(s: Serializer, c: Cert): Octets {
    s.dump(VDict(Data(c)))
  }

  function ToValue(c: Cert): Value {
    VDict([("data", VDict(Data(c))), ("sign", VBytes(c.signature))])
  }

  function ToBytes(s: Serializer, c: Cert): Octets {
    s.dump(ToValue(c))
  }

  /** The loop over data["algs"]. */
  function LoadKeys(d: Dict): Option<KeyTable> {
    if d == [] then Some([])
    else if d[0].0 == "" || !d[0].1.VDict? then None
    else
      var key := Get(d[0].1.entries, "pub");
      if key.None? || !key.value.VBytes? then None
      else
        var rest := LoadKeys(d[1..]);
        if rest.None? then None else Some([(d[0].0, key.value.o)] + rest.value)
  }

  function AsInt(v: Value): Option<int> {
    match v
    case VInt(n) => Some(n)
    case VBool(b) => Some(if b then 1 else 0)
    case _ => None
  }

  function FromData(data: Dict, signature: Octets): Result<Cert> {
    var c, v, name := Get(data, "c"), Get(data, "c_v"), Get(data, "domain");
    var algs, exp := Get(data, "algs"), Get(data, "exp");
    if c.None? || !c.value.VStr? || c.value.s == "" then Err("data.c")
    else if v.None? || AsInt(v.value).None? || AsInt(v.value).value < 0 then Err("data.c_v")
    else if name.None? || !name.value.VStr? || name.value.s == "" then Err("data.domain")
    else if algs.None? || !algs.value.VDict? || algs.value.entries == [] then Err("data.algs")
    else if exp.None? || !exp.value.VTime? then Err("data.exp")
    else
      var keys := LoadKeys(algs.value.entries);
      if keys.None? then Err("algorithm payload")
      else Make(c.value.s, AsInt(v.value).value, name.value.s, keys.value, exp.value.t, signature, Some(data))
  }

  function FromValue(v: Value): Result<Cert> {
    if !v.VDict? then Err("payload must be a dict")
    else
      var data, signature := Get(v.entries, "data"), Get(v.entries, "sign");
      if data.None? || !data.value.VDict? then Err("data must be a dict")
      else if signature.None? || !signature.value.VBytes? then Err("sign must be bytes")
      else FromData(data.value.entries, signature.value.o)
  }

  function FromBytes(s: Serializer, data: Octets): Result<Cert> {
    var v := s.load(data);
    if v.None? then Err("deserialize") else FromValue(v.value)
  }

  /** Every entry of the algorithms holds its public key as octets. */
  predicate OctetKeys(algs: Dict) {
    forall i :: 0 <= i < |algs| ==> PubOf(algs[i].1).Some? && PubOf(algs[i].1).value.VBytes?
  }

  function PubOf(v: Value): Option<Value> {
    if v.VDict? then Get(v.entries, "pub") else None
  }

  predicate NamedAlgorithms(algs: Dict) {
    forall i :: 0 <= i < |algs| ==> algs[i].0 != "" && algs[i].1.VDict?
  }

  /** The dictionary says of the certificate what its fields say, public keys aside. */
  predicate Describes(data: Dict, c: Cert) {
    var v, exp := Get(data, "c_v"), Get(data, "exp");
    && c.centerDomain != "" && Get(data, "c") == Some(VStr(c.centerDomain))
    && v.Some? && AsInt(v.value) == Some(c.keyVersion) && c.keyVersion >= 0
    && c.name != "" && Get(data, "domain") == Some(VStr(c.name))
    && exp.Some? && exp.value.VTime? && Utc(exp.value.t) == c.expiresAt
    && Get(data, "algs").Some? && Get(data, "algs").value.VDict? && Get(data, "algs").value.entries != []
    && NamedAlgorithms(Get(data, "algs").value.entries)
  }

  function AlgsOf(data: Dict): Dict {
    var algs := Get(data, "algs");
    if algs.Some? && algs.value.VDict? then algs.value.entries else []
  }

  /** The keys the receiver reads from the source dictionary, under their normalized names. */
  function ReadKeys(data: Dict): Option<KeyTable> {
    var keys := LoadKeys(AlgsOf(data));
    if keys.None? then None else Normalized([], keys.value)
  }

  /** Fields the constructor accepts, and a source dictionary, if any, that tells them all. */
  predicate WellFormed(c: Cert) {
    match c.sourceData
    case None => Make(c.centerDomain, c.keyVersion, c.name, c.publicKeys, c.expiresAt, c.signature, None) == Ok(c)
    case Some(data) =>
      Describes(data, c) && OctetKeys(AlgsOf(data)) && ReadKeys(data) == Some(c.publicKeys) && c.publicKeys != []
  }

  /** A table goes through exactly when no name and no key is empty. */
  lemma {:induction false} GoesThroughExactly(seen: KeyTable, given: KeyTable)
    ensures Normalized(seen, given).Some? <==> forall i :: 0 <= i < |given| ==> given[i].0 != "" && given[i].1 != []
    ensures Normalized(seen, given).Some? ==> (Normalized(seen, given).value == [] <==> seen == [] && given == [])
    decreases |given|
  {
    if given != [] {
      GoesThroughExactly(Put(seen, Normalize(given[0].0), given[0].1), given[1..]);
      assert forall i :: 0 < i < |given| ==> given[i] == given[1..][i - 1];
      assert forall i :: 0 <= i < |given[1..]| ==> given[1..][i] == given[i + 1];
    }
  }

  /** What the constructor accepts, and what it makes: times in UTC, keys under their normalized names. */
  lemma MakesExactly(
    centerDomain: string, keyVersion: int, name: string, publicKeys: KeyTable, expiresAt: DateTime, signature: Octets,
    sourceData: Option<Dict>, algorithm: string)
    ensures var r := Make(centerDomain, keyVersion, name, publicKeys, expiresAt, signature, sourceData);
            && (r.Ok?
                <==> && centerDomain != "" && keyVersion >= 0 && name != "" && publicKeys != []
                     && forall i :: 0 <= i < |publicKeys| ==> publicKeys[i].0 != "" && publicKeys[i].1 != [])
            && (r.Ok? ==>
                  && r.value.centerDomain == centerDomain && r.value.keyVersion == keyVersion && r.value.name == name
                  && r.value.expiresAt.Aware? && r.value.expiresAt.instant == expiresAt.instant
                  && r.value.expiresAt.offset == 0 && r.value.signature == signature && r.value.sourceData == sourceData
                  && PublicKey(r.value, algorithm) == LastUnder(publicKeys, Normalize(algorithm)))
  {
    GoesThroughExactly([], publicKeys);
    if Normalized([], publicKeys).Some? {
      LastSpellingWins([], publicKeys, Normalize(algorithm));
    }
  }

  /** A version may be written as a truth value, and as nothing else but an integer. */
  lemma VersionReads(v: Value, n: int)
    ensures AsInt(v) == Some(n) <==> v == VInt(n) || (v == VBool(true) && n == 1) || (v == VBool(false) && n == 0)
  {
  }

  lemma {:induction false} LoadsExactly(algs: Dict)
    ensures LoadKeys(algs).Some? <==> NamedAlgorithms(algs) && OctetKeys(algs)
  {
    if algs != [] {
      LoadsExactly(algs[1..]);
      assert forall i :: 0 < i < |algs| ==> algs[i] == algs[1..][i - 1];
    }
  }

  lemma MadeIsWellFormed(
    centerDomain: string, keyVersion: int, name: string, publicKeys: KeyTable, expiresAt: DateTime, signature: Octets)
    requires Make(centerDomain, keyVersion, name, publicKeys, expiresAt, signature, None).Ok?
    ensures WellFormed(Make(centerDomain, keyVersion, name, publicKeys, expiresAt, signature, None).value)
  {
    NormalizedCanonical([], publicKeys);
    var keys := Normalized([], publicKeys).value;
    assert [] + keys == keys;
    CanonicalStays([], keys);
  }

  /** A certificate that was received can be sent on. */
  lemma ParsedIsWellFormed(v: Value)
    requires FromValue(v).Ok?
    ensures WellFormed(FromValue(v).value)
  {
    var data := Get(v.entries, "data").value.entries;
    LoadsExactly(AlgsOf(data));
  }

  lemma {:induction false} LoadDumped(keys: KeyTable)
    requires forall i :: 0 <= i < |keys| ==> keys[i].0 != ""
    ensures LoadKeys(DumpKeys(keys)) == Some(keys)
  {
    if keys != [] {
      assert DumpKeys(keys)[1..] == DumpKeys(keys[1..]);
      LoadDumped(keys[1..]);
      assert DumpKeys(keys)[0] == (keys[0].0, VDict([("pub", VBytes(keys[0].1))]));
      assert [keys[0]] + keys[1..] == keys;
    }
  }

  lemma {:induction false} NormalizedNames(seen: KeyTable, given: KeyTable)
    requires Normalized(seen, given).Some?
    ensures forall i :: 0 <= i < |given| ==> given[i].0 != "" && given[i].1 != []
    decreases |given|
  {
    if given != [] {
      NormalizedNames(Put(seen, Normalize(given[0].0), given[0].1), given[1..]);
      assert forall i :: 0 < i < |given| ==> given[i] == given[1..][i - 1];
    }
  }

  lemma {:induction false} GetAt(d: Dict, key: string, i: nat)
    requires i < |d| && d[i].0 == key && forall j :: 0 <= j < i ==> d[j].0 != key
    ensures Get(d, key) == Some(d[i].1)
    decreases i
  {
    if i > 0 {
      assert d[0].0 != key;
      assert forall j :: 0 <= j < i ==> d[1..][j] == d[j + 1];
      GetAt(d[1..], key, i - 1);
    }
  }

  lemma DataDictReads(c: Cert)
    ensures var d := DataDict(c);
            && Get(d, "c") == Some(VStr(c.centerDomain)) && Get(d, "c_v") == Some(VInt(c.keyVersion))
            && Get(d, "domain") == Some(VStr(c.name)) && Get(d, "algs") == Some(VDict(DumpKeys(c.publicKeys)))
            && Get(d, "exp") == Some(VTime(c.expiresAt))
  {
    var d := DataDict(c);
    assert |"c"| == 1 && |"c_v"| == 3 && |"domain"| == 6 && |"algs"| == 4 && |"exp"| == 3;
    assert "c_v"[0] == 'c' && "exp"[0] == 'e';
    GetAt(d, "c", 0);
    GetAt(d, "c_v", 1);
    GetAt(d, "domain", 2);
    GetAt(d, "algs", 3);
    GetAt(d, "exp", 4);
  }

  /** What goes on the wire reads back as the same certificate, now carrying its source dictionary. */
  lemma ValueRoundTrip(c: Cert)
    requires WellFormed(c)
    ensures FromValue(ToValue(c)) == Ok(c.(sourceData := Some(Data(c))))
    ensures ToValue(c.(sourceData := Some(Data(c)))) == ToValue(c)
  {
    var v := ToValue(c);
    assert "data" != "sign" by { assert "data"[0] != "sign"[0]; }
    GetAt(v.entries, "data", 0);
    GetAt(v.entries, "sign", 1);
    if c.sourceData.None? {
      DataDictReads(c);
      NormalizedNames([], c.publicKeys);
      LoadDumped(c.publicKeys);
    } else {
      LoadsExactly(AlgsOf(c.sourceData.value));
    }
  }

  /** A certificate whose source dictionary holds a key as text is refused by every receiver. */
  lemma TextualKeysRefused(s: Serializer, c: Cert)
    requires Lawful(s) && c.sourceData.Some? && !OctetKeys(AlgsOf(c.sourceData.value))
    ensures FromBytes(s, ToBytes(s, c)).Err?
  {
    var v := ToValue(c);
    assert "data" != "sign" by { assert "data"[0] != "sign"[0]; }
    GetAt(v.entries, "data", 0);
    GetAt(v.entries, "sign", 1);
    LoadsExactly(AlgsOf(c.sourceData.value));
  }

  lemma BytesRoundTrip(s: Serializer, c: Cert)
    requires Lawful(s) && WellFormed(c)
    ensures FromBytes(s, ToBytes(s, c)) == Ok(c.(sourceData := Some(Data(c))))
    ensures ToBytes(s, c.(sourceData := Some(Data(c)))) == ToBytes(s, c)
    ensures UnsignedBytes(s, c.(sourceData := Some(Data(c)))) == UnsignedBytes(s, c)
  {
    ValueRoundTrip(c);
  }

  // ----- what a certificate's signature covers -----

  /** The same certificate, its signature and the way its source is kept aside. */
  predicate SameFields(a: Cert, b: Cert) {
    && a.centerDomain == b.centerDomain && a.keyVersion == b.keyVersion && a.name == b.name
    && a.publicKeys == b.publicKeys && a.expiresAt == b.expiresAt
  }

  lemma DumpInjective(s: Serializer, v: Value, u: Value)
    requires Lawful(s) && s.dump(v) == s.dump(u)
    ensures v == u
  {
    assert s.load(s.dump(v)) == Some(v) && s.load(s.dump(u)) == Some(u);
  }

  lemma DataTellsFields(a: Cert, b: Cert)
    requires WellFormed(a) && WellFormed(b) && Data(a) == Data(b)
    ensures SameFields(a, b)
  {
    var c := b.(signature := a.signature);
    assert WellFormed(c) by {
      if b.sourceData.None? {
        assert Make(b.centerDomain, b.keyVersion, b.name, b.publicKeys, b.expiresAt, b.signature, None) == Ok(b);
      }
    }
    ValueRoundTrip(a);
    ValueRoundTrip(c);
    assert Data(c) == Data(b);
    assert ToValue(a) == ToValue(c);
  }

  /** What the authority signs determines every field of the certificate but the signature itself. */
  lemma SignatureCovers(s: Serializer, a: Cert, b: Cert)
    requires Lawful(s) && WellFormed(a) && WellFormed(b) && UnsignedBytes(s, a) == UnsignedBytes(s, b)
    ensures SameFields(a, b)
  {
    DumpInjective(s, VDict(Data(a)), VDict(Data(b)));
    DataTellsFields(a, b);
  }

  /** What is sent determines the signature too. */
  lemma SentCovers(s: Serializer, a: Cert, b: Cert)
    requires Lawful(s) && WellFormed(a) && WellFormed(b) && ToBytes(s, a) == ToBytes(s, b)
    ensures SameFields(a, b) && a.signature == b.signature
  {
    BytesRoundTrip(s, a);
    BytesRoundTrip(s, b);
  }
}
