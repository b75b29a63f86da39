// Compilation of type annotations into checkers, and the relation the checkers decide.
module Checkers {
  import opened Prelude

  datatype Value =
    | VNone
    | VBool(b: bool)
    | VInt(n: int)
    | VFloat(r: real)
    | VStr(s: string)
    | VBytes(octets: seq<int>)
    | VDateTime(instant: int)
    | VTime(time: int)
    | VList(items: seq<Value>)
    | VSet(elements: seq<Value>)
    | VTuple(members: seq<Value>)
    | VDict(entries: seq<(Value, Value)>)
    | VOther(tag: nat)

  /** Annotations; `Untyped` stands for a missing one, and a dictionary key may be untyped. */
  datatype Annotation =
    | Untyped
    | UnionOf(alternatives: seq<Annotation>)
    | TNone | TBool | TInt | TFloat | TStr | TBytes | TDateTime | TTime
    | ListOf(item: Annotation)
    | SetOf(element: Annotation)
    | TupleOf(member: Annotation)
    | FixedTuple(parts: seq<Annotation>)
    | DictOf(key: Annotation, value: Annotation)
    | Model(name: nat)
    | Unsupported(tag: nat)

  predicate IsKey(v: Value) {
    v.VStr? || v.VBytes? || v.VInt? || v.VBool?
  }

  predicate Serializable(v: Value) {
    match v
    case VList(items) => forall i :: 0 <= i < |items| ==> Serializable(items[i])
    case VSet(elements) => forall i :: 0 <= i < |elements| ==> Serializable(elements[i])
    case VTuple(members) => forall i :: 0 <= i < |members| ==> Serializable(members[i])
    case VDict(entries) => forall i :: 0 <= i < |entries| ==> IsKey(entries[i].0) && Serializable(entries[i].1)
    case VOther(_) => false
    case _ => true
  }

  /** The values within a value, the dictionary keys aside. */
  function Within(v: Value): seq<Value> {
    [v] + (match v
           case VList(items) => AllWithin(items)
           case VSet(elements) => AllWithin(elements)
           case VTuple(members) => AllWithin(members)
           case VDict(entries) => EntriesWithin(entries)
           case _ => [])
  }

  function AllWithin(values: seq<Value>): seq<Value> {
    if values == [] then [] else Within(values[0]) + AllWithin(values[1..])
  }

  function EntriesWithin(entries: seq<(Value, Value)>): seq<Value> {
    if entries == [] then [] else EntryWithin(entries[0]) + EntriesWithin(entries[1..])
  }

  function EntryWithin(entry: (Value, Value)): seq<Value> {
    Within(entry.1)
  }

  /** Neither a foreign object nor a dictionary with a key that is no string, bytes or integer. */
  predicate Sound(v: Value) {
    && !v.VOther?
    && (v.VDict? ==> forall i :: 0 <= i < |v.entries| ==>
          v.entries[i].0.VStr? || v.entries[i].0.VBytes? || v.entries[i].0.VInt? || v.entries[i].0.VBool?)
  }

  predicate AllSound(values: seq<Value>) {
    forall i :: 0 <= i < |values| ==> Sound(values[i])
  }

  lemma AllSoundConcat(a: seq<Value>, b: seq<Value>)
    ensures AllSound(a + b) <==> AllSound(a) && AllSound(b)
  {
    assert forall i :: 0 <= i < |a| ==> (a + b)[i] == a[i];
    assert forall i :: 0 <= i < |b| ==> (a + b)[|a| + i] == b[i];
  }

  /** A value can be serialized exactly when everything within it is sound, however deep it lies. */
  lemma {:induction false} SerializableExactly(v: Value)
    ensures Serializable(v) <==> AllSound(Within(v))
    decreases v
  {
    AllSoundConcat([v], Within(v)[1..]);
    assert [v] + Within(v)[1..] == Within(v);
    assert AllSound([v]) <==> Sound(v) by { assert [v][0] == v; }
    match v {
      case VList(items) =>
        AllSerializable(items);
        assert Within(v)[1..] == AllWithin(items);
      case VSet(elements) =>
        AllSerializable(elements);
        assert Within(v)[1..] == AllWithin(elements);
      case VTuple(members) =>
        AllSerializable(members);
        assert Within(v)[1..] == AllWithin(members);
      case VDict(entries) =>
        EntriesSerializable(entries);
        assert Within(v)[1..] == EntriesWithin(entries);
      case _ =>
    }
  }

  lemma {:induction false} AllSerializable(values: seq<Value>)
    ensures (forall i :: 0 <= i < |values| ==> Serializable(values[i])) <==> AllSound(AllWithin(values))
    decreases values
  {
    if values != [] {
      SerializableExactly(values[0]);
      AllSerializable(values[1..]);
      AllSoundConcat(Within(values[0]), AllWithin(values[1..]));
      assert forall i :: 0 < i < |values| ==> values[i] == values[1..][i - 1];
      assert forall i :: 0 <= i < |values[1..]| ==> values[1..][i] == values[i + 1];
    }
  }

  lemma {:induction false} EntrySerializable(entry: (Value, Value))
    ensures Serializable(entry.1) <==> AllSound(EntryWithin(entry))
    decreases entry
  {
    SerializableExactly(entry.1);
  }

  lemma {:induction false} EntriesSerializable(entries: seq<(Value, Value)>)
    ensures (forall i :: 0 <= i < |entries| ==> Serializable(entries[i].1)) <==> AllSound(EntriesWithin(entries))
    decreases entries
  {
    if entries != [] {
      EntrySerializable(entries[0]);
      EntriesSerializable(entries[1..]);
      AllSoundConcat(EntryWithin(entries[0]), EntriesWithin(entries[1..]));
      assert forall i :: 0 < i < |entries| ==> entries[i] == entries[1..][i - 1];
      assert forall i :: 0 <= i < |entries[1..]| ==> entries[1..][i] == entries[i + 1];
    }
  }

  // ----- the declarative relation -----

  predicate HasType(v: Value, t: Annotation)
    decreases t
  {
    match t
    case Untyped => Serializable(v)
    case UnionOf(alternatives) => exists i :: 0 <= i < |alternatives| && HasType(v, alternatives[i])
    case TNone => v.VNone?
    case TBool => v.VBool?
    case TInt => v.VInt?
    case TFloat => v.VFloat?
    case TStr => v.VStr?
    case TBytes => v.VBytes?
    case TDateTime => v.VDateTime?
    case TTime => v.VTime?
    case ListOf(item) => v.VList? && forall i :: 0 <= i < |v.items| ==> HasType(v.items[i], item)
    case SetOf(element) => v.VSet? && forall i :: 0 <= i < |v.elements| ==> HasType(v.elements[i], element)
    case TupleOf(member) => v.VTuple? && forall i :: 0 <= i < |v.members| ==> HasType(v.members[i], member)
    case DictOf(key, value) =>
      v.VDict? && forall i :: 0 <= i < |v.entries| ==>
        IsKey(v.entries[i].0) && (key == Untyped || HasType(v.entries[i].0, key)) && HasType(v.entries[i].1, value)
    case _ => false
  }

  // ----- texts -----

  /** How a value is printed in a message. */
  type Show = Value -> string

  predicate IsLineBreak(c: char) {
    var n := c as int;
    0xA <= n <= 0xD || 0x1C <= n <= 0x1E || n == 0x85 || n == 0x2028 || n == 0x2029
  }

  /** The lines of a text, as str.splitlines cuts it. */
  function Lines(s: string): (lines: seq<string>)
    ensures lines == [] <==> |s| == 0
    decreases |s|, 1
  {
    if |s| == 0 then []
    else if s[0] == '\r' && |s| > 1 && s[1] == '\n' then [""] + Lines(s[2..])
    else if IsLineBreak(s[0]) then [""] + Lines(s[1..])
    else if |s| == 1 || IsLineBreak(s[1]) then LastOfLine(s)
    else
      var rest := Lines(s[1..]);
      [[s[0]] + rest[0]] + rest[1..]
  }

  /** A character at the end of its line, with the line break behind it. */
  function LastOfLine(s: string): (lines: seq<string>)
    requires s != ""
    ensures lines != []
    decreases |s|, 0
  {
    if |s| == 1 then [s]
    else if s[1] == '\r' && |s| > 2 && s[2] == '\n' then [[s[0]]] + Lines(s[3..])
    else [[s[0]]] + Lines(s[2..])
  }

  function Join(lines: seq<string>): string {
    if lines == [] then "" else if |lines| == 1 then lines[0] else lines[0] + "\n" + Join(lines[1..])
  }

  function Expected(what: string, got: string): (e: string)
    ensures |e| > 0
  {
    "expected " + what + ", got " + got
  }

  function Prefixed(prefix: string, e: string): (r: string)
    ensures |r| > 0
  {
    prefix + ": " + e
  }

  // ----- the compiler -----

  /** None for a valid value, and a text otherwise. */
  type Checker = Value -> Option<string>

  /** A text counts as an error when it is not empty. */
  predicate Fails(e: Option<string>) {
    e.Some? && |e.value| > 0
  }

  function Text(e: Option<string>): string {
    if e.Some? then e.value else ""
  }

  function Digits(n: nat): string {
    if n < 10 then [('0' as int + n) as char] else Digits(n / 10) + [('0' as int + n % 10) as char]
  }

  /** Elements are taken in turn; each must first be serializable. */
  function FirstError(show: Show, check: Checker, elements: seq<Value>, i: nat, indexed: bool): (e: Option<string>)
    requires i <= |elements|
    ensures e.Some? ==> |e.value| > 0
    decreases |elements| - i
  {
    if i == |elements| then None
    else
      var prefix := if indexed then "[" + Digits(i) + "]" else "set-elem";
      if !Serializable(elements[i]) then Some(Prefixed(prefix, Expected("SerializableType", show(elements[i]))))
      else if Fails(check(elements[i])) then Some(Prefixed(prefix, Text(check(elements[i]))))
      else FirstError(show, check, elements, i + 1, indexed)
  }

  function Prefix(prefix: string, lines: seq<string>): (r: seq<string>)
    ensures |r| == |lines|
  {
    seq(|lines|, i requires 0 <= i < |lines| => Prefixed(prefix, lines[i]))
  }

  function ShapeErrors(show: Show, k: Value): seq<string> {
    if IsKey(k) then [] else [Expected("str|bytes|int", show(k))]
  }

  function KeyErrors(show: Show, keyCheck: Option<Checker>, k: Value): seq<string> {
    if keyCheck.Some? && Fails(keyCheck.value(k))
    then [Prefixed("key", Text(keyCheck.value(k))), Expected("str|bytes|int", show(k))]
    else []
  }

  function ValueErrors(show: Show, valueCheck: Checker, entry: (Value, Value)): seq<string> {
    var e := valueCheck(entry.1);
    if Fails(e) then Prefix(show(entry.0), Lines(Text(e))) else []
  }

  /** All complaints about one entry. */
  function EntryErrors(show: Show, keyCheck: Option<Checker>, valueCheck: Checker, entry: (Value, Value)): seq<string> {
    ShapeErrors(show, entry.0) + KeyErrors(show, keyCheck, entry.0) + ValueErrors(show, valueCheck, entry)
  }

  function Concat(lists: seq<seq<string>>): seq<string> {
    if lists == [] then [] else Concat(lists[..|lists| - 1]) + lists[|lists| - 1]
  }

  function EntryLists(
    show: Show, keyCheck: Option<Checker>, valueCheck: Checker, entries: seq<(Value, Value)>): (r: seq<seq<string>>)
    ensures |r| == |entries|
    ensures forall i :: 0 <= i < |entries| ==> r[i] == EntryErrors(show, keyCheck, valueCheck, entries[i])
  {
    seq(|entries|, i requires 0 <= i < |entries| => EntryErrors(show, keyCheck, valueCheck, entries[i]))
  }

  function DictErrors(
    show: Show, keyCheck: Option<Checker>, valueCheck: Checker, entries: seq<(Value, Value)>): seq<string>
  {
    Concat(EntryLists(show, keyCheck, valueCheck, entries))
  }

  lemma ConcatNext(lists: seq<seq<string>>, i: nat)
    requires i < |lists|
    ensures Concat(lists[..i + 1]) == Concat(lists[..i]) + lists[i]
  {
    assert lists[..i + 1][..i] == lists[..i];
  }

  method CollectEntryErrors(show: Show, keyCheck: Option<Checker>, valueCheck: Checker, k: Value, v: Value)
    returns (errors: seq<string>)
    ensures errors == EntryErrors(show, keyCheck, valueCheck, (k, v))
  {
    errors := [];
    if !IsKey(k) {
      errors := errors + [Expected("str|bytes|int", show(k))];
    }
    assert errors == ShapeErrors(show, k);
    if keyCheck.Some? {
      var e := keyCheck.value(k);
      if Fails(e) {
        errors := errors + [Prefixed("key", e.value), Expected("str|bytes|int", show(k))];
      }
    }
    assert errors == ShapeErrors(show, k) + KeyErrors(show, keyCheck, k);
    var e := valueCheck(v);
    if Fails(e) {
      errors := errors + Prefix(show(k), Lines(e.value));
    }
  }

  method CollectDictErrors(show: Show, keyCheck: Option<Checker>, valueCheck: Checker, entries: seq<(Value, Value)>)
    returns (errors: seq<string>)
    ensures errors == DictErrors(show, keyCheck, valueCheck, entries)
  {
    errors := [];
    ghost var lists := EntryLists(show, keyCheck, valueCheck, entries);
    var i := 0;
    while i < |entries|
      invariant 0 <= i <= |entries|
      invariant errors == Concat(lists[..i])
    {
      var more := CollectEntryErrors(show, keyCheck, valueCheck, entries[i].0, entries[i].1);
      assert more == lists[i];
      ConcatNext(lists, i);
      errors := errors + more;
      i := i + 1;
    }
    assert lists[..|entries|] == lists;
  }

  /** Whether some alternative accepts. */
  predicate SomeAccepts(checks: seq<Checker>, v: Value) {
    exists i :: 0 <= i < |checks| && checks[i](v).None?
  }

  predicate PrimitiveAccepts(t: Annotation, v: Value) {
    match t
    case TNone => v.VNone?
    case TBool => v.VBool?
    case TInt => v.VInt?
    case TFloat => v.VFloat?
    case TStr => v.VStr?
    case TBytes => v.VBytes?
    case TDateTime => v.VDateTime?
    case TTime => v.VTime?
    case _ => false
  }

  function NameOf(t: Annotation): string {
    match t
    case TNone => "None"
    case TBool => "bool"
    case TInt => "int"
    case TFloat => "float"
    case TStr => "str"
    case TBytes => "bytes"
    case TDateTime => "datetime.datetime"
    case TTime => "datetime.time"
    case _ => "SerializableType"
  }

  function UntypedChecker(show: Show): Checker {
    (v: Value) => if Serializable(v) then None else Some(Expected("SerializableType", show(v)))
  }

  function UnionChecker(show: Show, checks: seq<Checker>): Checker {
    (v: Value) => if SomeAccepts(checks, v) then None else Some(Expected("one of several types", show(v)))
  }

  function PrimitiveChecker(show: Show, t: Annotation): Checker {
    (v: Value) => if PrimitiveAccepts(t, v) then None else Some(Expected(NameOf(t), show(v)))
  }

  function ListChecker(show: Show, check: Checker): Checker {
    (v: Value) => if v.VList? then FirstError(show, check, v.items, 0, true) else Some(Expected("list", show(v)))
  }

  function SetChecker(show: Show, check: Checker): Checker {
    (v: Value) => if v.VSet? then FirstError(show, check, v.elements, 0, false) else Some(Expected("set", show(v)))
  }

  function TupleChecker(show: Show, check: Checker): Checker {
    (v: Value) => if v.VTuple? then FirstError(show, check, v.members, 0, true) else Some(Expected("tuple", show(v)))
  }

  function DictChecker(show: Show, keyCheck: Option<Checker>, valueCheck: Checker): Checker {
    (v: Value) =>
      if !v.VDict? then Some(Expected("dict", show(v)))
      else
        var errors := DictErrors(show, keyCheck, valueCheck, v.entries);
        if errors == [] then None else Some(Join(errors))
  }

  function Refuser(text: string): Checker {
    (v: Value) => Some(text)
  }

  function Compile(show: Show, t: Annotation): Checker {
    match t
    case Untyped => UntypedChecker(show)
    case UnionOf(alternatives) =>
      UnionChecker(show, seq(|alternatives|, i requires 0 <= i < |alternatives| => Compile(show, alternatives[i])))
    case ListOf(item) => ListChecker(show, Compile(show, item))
    case SetOf(element) => SetChecker(show, Compile(show, element))
    case TupleOf(member) => TupleChecker(show, Compile(show, member))
    case DictOf(key, value) =>
      DictChecker(show, if key == Untyped then None else Some(Compile(show, key)), Compile(show, value))
    case FixedTuple(_) => Refuser("only Tuple[T, ...] is allowed")
    case Model(_) => Refuser("unsupported annotation")
    case Unsupported(_) => Refuser("unsupported annotation")
    case _ => PrimitiveChecker(show, t)
  }

  // ----- correctness -----

  /** Acceptance implies serializability, so no gate in front of an element changes a verdict. */
  lemma {:induction false} TypedSerializable(v: Value, t: Annotation)
    requires HasType(v, t)
    ensures Serializable(v)
    decreases t
  {
    match t {
      case UnionOf(alternatives) =>
        var i :| 0 <= i < |alternatives| && HasType(v, alternatives[i]);
        TypedSerializable(v, alternatives[i]);
      case ListOf(item) =>
        forall i | 0 <= i < |v.items| ensures Serializable(v.items[i]) { TypedSerializable(v.items[i], item); }
      case SetOf(element) =>
        forall i | 0 <= i < |v.elements| ensures Serializable(v.elements[i]) {
          TypedSerializable(v.elements[i], element);
        }
      case TupleOf(member) =>
        forall i | 0 <= i < |v.members| ensures Serializable(v.members[i]) { TypedSerializable(v.members[i], member); }
      case DictOf(key, value) =>
        forall i | 0 <= i < |v.entries| ensures IsKey(v.entries[i].0) && Serializable(v.entries[i].1) {
          TypedSerializable(v.entries[i].1, value);
        }
      case _ =>
    }
  }

  /** None for the values of the type, and a text that is not empty for all others. */
  ghost predicate Verdict(e: Option<string>, v: Value, t: Annotation) {
    && (e.None? <==> HasType(v, t))
    && (e.Some? ==> |e.value| > 0)
  }

  ghost predicate Decides(check: Checker, t: Annotation) {
    forall v: Value :: Verdict(check(v), v, t)
  }

  lemma {:induction false} FirstErrorExactly(
    show: Show, check: Checker, t: Annotation, elements: seq<Value>, i: nat, indexed: bool)
    requires Decides(check, t) && i <= |elements|
    ensures var e := FirstError(show, check, elements, i, indexed);
            && (e.None? <==> forall j :: i <= j < |elements| ==> HasType(elements[j], t))
            && (e.Some? ==> |e.value| > 0)
    decreases |elements| - i
  {
    if i < |elements| {
      var x := elements[i];
      assert Verdict(check(x), x, t);
      FirstErrorExactly(show, check, t, elements, i + 1, indexed);
      if HasType(x, t) {
        TypedSerializable(x, t);
      }
    }
  }

  predicate EntryTyped(key: Annotation, value: Annotation, entry: (Value, Value)) {
    IsKey(entry.0) && (key == Untyped || HasType(entry.0, key)) && HasType(entry.1, value)
  }

  /** The key checker a dictionary checker was built with. */
  ghost predicate DecidesKey(keyCheck: Option<Checker>, key: Annotation) {
    if keyCheck.None? then key == Untyped else key != Untyped && Decides(keyCheck.value, key)
  }

  /** A list of complaints that begins by saying something, if it has any. */
  predicate Speaks(errors: seq<string>) {
    |errors| > 0 ==> |errors[0]| > 0
  }

  lemma KeyExactly(show: Show, keyCheck: Option<Checker>, key: Annotation, k: Value)
    requires DecidesKey(keyCheck, key)
    ensures |KeyErrors(show, keyCheck, k)| == 0 <==> key == Untyped || HasType(k, key)
    ensures Speaks(KeyErrors(show, keyCheck, k))
  {
    if keyCheck.Some? {
      assert Verdict(keyCheck.value(k), k, key);
    }
  }

  lemma ValueExactly(show: Show, valueCheck: Checker, value: Annotation, entry: (Value, Value))
    requires Decides(valueCheck, value)
    ensures |ValueErrors(show, valueCheck, entry)| == 0 <==> HasType(entry.1, value)
    ensures Speaks(ValueErrors(show, valueCheck, entry))
  {
    assert Verdict(valueCheck(entry.1), entry.1, value);
  }

  lemma ShapeExactly(show: Show, k: Value)
    ensures |ShapeErrors(show, k)| == 0 <==> IsKey(k)
    ensures Speaks(ShapeErrors(show, k))
  {
    var bad := Expected("str|bytes|int", show(k));
    assert |bad| > 0;
  }

  lemma ThreeLists(a: seq<string>, b: seq<string>, c: seq<string>)
    requires Speaks(a) && Speaks(b) && Speaks(c)
    ensures Speaks(a + b + c) && (|a + b + c| == 0 <==> |a| == 0 && |b| == 0 && |c| == 0)
  {
  }

  /** No complaint exactly for a typed entry. */
  lemma EntryExactly(
    show: Show, keyCheck: Option<Checker>, key: Annotation, valueCheck: Checker, value: Annotation,
    entry: (Value, Value))
    requires DecidesKey(keyCheck, key) && Decides(valueCheck, value)
    ensures |EntryErrors(show, keyCheck, valueCheck, entry)| == 0 <==> EntryTyped(key, value, entry)
    ensures Speaks(EntryErrors(show, keyCheck, valueCheck, entry))
  {
    ShapeExactly(show, entry.0);
    KeyExactly(show, keyCheck, key, entry.0);
    ValueExactly(show, valueCheck, value, entry);
    ThreeLists(ShapeErrors(show, entry.0), KeyErrors(show, keyCheck, entry.0), ValueErrors(show, valueCheck, entry));
  }

  lemma {:induction false} ConcatExactly(lists: seq<seq<string>>)
    requires forall i :: 0 <= i < |lists| ==> Speaks(lists[i])
    ensures |Concat(lists)| == 0 <==> forall i :: 0 <= i < |lists| ==> |lists[i]| == 0
    ensures Speaks(Concat(lists))
  {
    if lists != [] {
      var n := |lists| - 1;
      assert forall i :: 0 <= i < n ==> lists[..n][i] == lists[i];
      ConcatExactly(lists[..n]);
    }
  }

  lemma DictExactly(
    show: Show, keyCheck: Option<Checker>, key: Annotation, valueCheck: Checker, value: Annotation,
    entries: seq<(Value, Value)>)
    requires DecidesKey(keyCheck, key) && Decides(valueCheck, value)
    ensures |DictErrors(show, keyCheck, valueCheck, entries)| == 0
            <==> forall i :: 0 <= i < |entries| ==> EntryTyped(key, value, entries[i])
    ensures Speaks(DictErrors(show, keyCheck, valueCheck, entries))
  {
    var lists := EntryLists(show, keyCheck, valueCheck, entries);
    forall i | 0 <= i < |entries|
      ensures Speaks(lists[i]) && (|lists[i]| == 0 <==> EntryTyped(key, value, entries[i]))
    {
      EntryExactly(show, keyCheck, key, valueCheck, value, entries[i]);
    }
    ConcatExactly(lists);
  }

  lemma DictTyped(v: Value, key: Annotation, value: Annotation)
    requires v.VDict?
    ensures HasType(v, DictOf(key, value))
            <==> forall i :: 0 <= i < |v.entries| ==> EntryTyped(key, value, v.entries[i])
  {
  }

  lemma JoinNotEmpty(lines: seq<string>)
    requires lines != [] && |lines[0]| > 0
    ensures |Join(lines)| > 0
  {
  }

  lemma UnionDecides(show: Show, checks: seq<Checker>, alternatives: seq<Annotation>)
    requires |checks| == |alternatives| && forall i :: 0 <= i < |checks| ==> Decides(checks[i], alternatives[i])
    ensures Decides(UnionChecker(show, checks), UnionOf(alternatives))
  {
    forall v: Value ensures Verdict(UnionChecker(show, checks)(v), v, UnionOf(alternatives)) {
      assert |Expected("one of several types", show(v))| > 0;
      assert forall i :: 0 <= i < |checks| ==> Verdict(checks[i](v), v, alternatives[i]);
    }
  }

  lemma DictDecides(show: Show, keyCheck: Option<Checker>, key: Annotation, valueCheck: Checker, value: Annotation)
    requires DecidesKey(keyCheck, key) && Decides(valueCheck, value)
    ensures Decides(DictChecker(show, keyCheck, valueCheck), DictOf(key, value))
  {
    forall v: Value ensures Verdict(DictChecker(show, keyCheck, valueCheck)(v), v, DictOf(key, value)) {
      assert |Expected("dict", show(v))| > 0;
      if v.VDict? {
        DictExactly(show, keyCheck, key, valueCheck, value, v.entries);
        DictTyped(v, key, value);
        var errors := DictErrors(show, keyCheck, valueCheck, v.entries);
        if errors != [] {
          JoinNotEmpty(errors);
        }
      }
    }
  }

  lemma ElementsDecide(show: Show, check: Checker, t: Annotation)
    requires Decides(check, t)
    ensures Decides(ListChecker(show, check), ListOf(t))
    ensures Decides(SetChecker(show, check), SetOf(t))
    ensures Decides(TupleChecker(show, check), TupleOf(t))
  {
    forall v: Value ensures Verdict(ListChecker(show, check)(v), v, ListOf(t)) {
      assert |Expected("list", show(v))| > 0;
      if v.VList? { FirstErrorExactly(show, check, t, v.items, 0, true); }
    }
    forall v: Value ensures Verdict(SetChecker(show, check)(v), v, SetOf(t)) {
      assert |Expected("set", show(v))| > 0;
      if v.VSet? { FirstErrorExactly(show, check, t, v.elements, 0, false); }
    }
    forall v: Value ensures Verdict(TupleChecker(show, check)(v), v, TupleOf(t)) {
      assert |Expected("tuple", show(v))| > 0;
      if v.VTuple? { FirstErrorExactly(show, check, t, v.members, 0, true); }
    }
  }

  /** For every annotation and value the compiled checker accepts exactly the values that have the type,
      and refuses the others with a text that is not empty. */
  lemma {:induction false} CompilerCorrect(show: Show, t: Annotation)
    ensures Decides(Compile(show, t), t)
    decreases t
  {
    match t {
      case UnionOf(alternatives) =>
        forall i | 0 <= i < |alternatives| ensures Decides(Compile(show, alternatives[i]), alternatives[i]) {
          CompilerCorrect(show, alternatives[i]);
        }
        UnionDecides(show, seq(|alternatives|, i requires 0 <= i < |alternatives| => Compile(show, alternatives[i])),
                     alternatives);
      case ListOf(item) =>
        CompilerCorrect(show, item);
        ElementsDecide(show, Compile(show, item), item);
      case SetOf(element) =>
        CompilerCorrect(show, element);
        ElementsDecide(show, Compile(show, element), element);
      case TupleOf(member) =>
        CompilerCorrect(show, member);
        ElementsDecide(show, Compile(show, member), member);
      case DictOf(key, value) =>
        CompilerCorrect(show, value);
        if key != Untyped {
          CompilerCorrect(show, key);
        }
        DictDecides(show, if key == Untyped then None else Some(Compile(show, key)), key, Compile(show, value), value);
      case FixedTuple(_) =>
        assert |"only Tuple[T, ...] is allowed"| > 0;
      case Model(_) =>
        assert |"unsupported annotation"| > 0;
      case Unsupported(_) =>
        assert |"unsupported annotation"| > 0;
      case _ =>
        forall v: Value ensures Verdict(Compile(show, t)(v), v, t) {
          assert |Expected(NameOf(t), show(v))| > 0;
        }
    }
  }

  // ----- what the texts say -----

  /** The characters that end a line, one by one. */
  lemma LineBreaks()
    ensures forall c: char :: IsLineBreak(c)
                              <==> c as int in {0xA, 0xB, 0xC, 0xD, 0x1C, 0x1D, 0x1E, 0x85, 0x2028, 0x2029}
  {
  }

  predicate OneLine(s: string) {
    forall i :: 0 <= i < |s| ==> !IsLineBreak(s[i])
  }

  lemma {:induction false} LineStays(s: string)
    requires s != "" && OneLine(s)
    ensures Lines(s) == [s]
    decreases |s|
  {
    if |s| > 1 {
      assert s[1..][0] == s[1];
      assert forall i :: 0 <= i < |s[1..]| ==> s[1..][i] == s[i + 1];
      LineStays(s[1..]);
      assert [s[0]] + s[1..] == s;
    }
  }

  /** Every line break ends a line, and the text behind it is cut in the same way. */
  lemma {:induction false} LinesAtBreak(line: string, end: char, rest: string)
    requires OneLine(line) && IsLineBreak(end) && !(end == '\r' && rest != "" && rest[0] == '\n')
    ensures Lines(line + [end] + rest) == [line] + Lines(rest)
    decreases |line|
  {
    var s := line + [end] + rest;
    assert s[|line|] == end && forall i :: 0 <= i < |line| ==> s[i] == line[i];
    assert rest != "" ==> s[|line| + 1] == rest[0];
    if line == "" {
      assert s[1..] == rest;
    } else if |line| == 1 {
      assert s[1] == end && s[2..] == rest;
      assert [s[0]] == line;
    } else {
      var next := line[1..];
      assert forall i :: 0 <= i < |next| ==> next[i] == line[i + 1];
      LinesAtBreak(next, end, rest);
      assert s[1..] == next + [end] + rest;
      assert s[1] == line[1];
      assert [s[0]] + next == line;
    }
  }

  /** A carriage return and a line feed together end one line. */
  lemma {:induction false} LinesAtReturn(line: string, rest: string)
    requires OneLine(line)
    ensures Lines(line + "\r\n" + rest) == [line] + Lines(rest)
    decreases |line|
  {
    var s := line + "\r\n" + rest;
    assert s[|line|] == '\r' && s[|line| + 1] == '\n' && forall i :: 0 <= i < |line| ==> s[i] == line[i];
    if line == "" {
      assert s[2..] == rest;
    } else if |line| == 1 {
      assert s[1] == '\r' && s[2] == '\n' && s[3..] == rest;
      assert [s[0]] == line;
    } else {
      var next := line[1..];
      assert forall i :: 0 <= i < |next| ==> next[i] == line[i + 1];
      LinesAtReturn(next, rest);
      assert s[1..] == next + "\r\n" + rest;
      assert s[1] == line[1];
      assert [s[0]] + next == line;
    }
  }

  /** Joined lines come apart again: no complaint swallows another. */
  lemma {:induction false} JoinedLinesComeApart(lines: seq<string>)
    requires forall i :: 0 <= i < |lines| ==> lines[i] != "" && OneLine(lines[i])
    ensures Lines(Join(lines)) == lines
  {
    if |lines| == 1 {
      LineStays(lines[0]);
    } else if |lines| > 1 {
      var rest := lines[1..];
      assert forall i :: 0 <= i < |rest| ==> rest[i] == lines[i + 1];
      JoinedLinesComeApart(rest);
      LinesAtBreak(lines[0], '\n', Join(rest));
      assert [lines[0]] + rest == lines;
    }
  }

  /** The number that decimal digits stand for. */
  function ReadDigits(s: string): int {
    if s == "" then 0 else ReadDigits(s[..|s| - 1]) * 10 + (s[|s| - 1] as int - '0' as int)
  }

  lemma {:induction false} DigitsRead(n: nat)
    ensures ReadDigits(Digits(n)) == n && Digits(n) != ""
    ensures forall i :: 0 <= i < |Digits(n)| ==> '0' <= Digits(n)[i] <= '9'
  {
    if n < 10 {
      assert Digits(n)[..0] == "";
    } else {
      DigitsRead(n / 10);
      assert Digits(n)[..|Digits(n)| - 1] == Digits(n / 10);
    }
  }

  /** The complaint about elements names the place of the first that is not of the type. */
  lemma {:induction false} FirstErrorNames(
    show: Show, check: Checker, t: Annotation, elements: seq<Value>, i: nat, indexed: bool, k: nat)
    requires Decides(check, t) && i <= k < |elements| && !HasType(elements[k], t)
    requires forall j :: i <= j < k ==> HasType(elements[j], t)
    ensures var place := if indexed then "[" + Digits(k) + "]" else "set-elem";
            var e := FirstError(show, check, elements, i, indexed);
            && e.Some?
            && e.value == place + ": " + (if Serializable(elements[k]) then Text(check(elements[k]))
                                          else Expected("SerializableType", show(elements[k])))
    decreases k - i
  {
    assert Verdict(check(elements[i]), elements[i], t);
    if i < k {
      TypedSerializable(elements[i], t);
      FirstErrorNames(show, check, t, elements, i + 1, indexed, k);
    }
  }

  /** A value that is not of a type is refused by that type's name, beside the value. */
  lemma RefusalsName(show: Show, v: Value)
    ensures !v.VNone? ==> Compile(show, TNone)(v) == Some("expected " + "None" + ", got " + show(v))
    ensures !v.VBool? ==> Compile(show, TBool)(v) == Some("expected " + "bool" + ", got " + show(v))
    ensures !v.VInt? ==> Compile(show, TInt)(v) == Some("expected " + "int" + ", got " + show(v))
    ensures !v.VFloat? ==> Compile(show, TFloat)(v) == Some("expected " + "float" + ", got " + show(v))
    ensures !v.VStr? ==> Compile(show, TStr)(v) == Some("expected " + "str" + ", got " + show(v))
  {
  }

  lemma OtherRefusalsName(show: Show, v: Value)
    ensures !v.VBytes? ==> Compile(show, TBytes)(v) == Some("expected " + "bytes" + ", got " + show(v))
    ensures !v.VDateTime?
            ==> Compile(show, TDateTime)(v) == Some("expected " + "datetime.datetime" + ", got " + show(v))
    ensures !v.VTime? ==> Compile(show, TTime)(v) == Some("expected " + "datetime.time" + ", got " + show(v))
    ensures !Serializable(v)
            ==> Compile(show, Untyped)(v) == Some("expected " + "SerializableType" + ", got " + show(v))
  {
  }

  lemma ContainersName(show: Show, t: Annotation, key: Annotation, v: Value)
    ensures !v.VList? ==> Compile(show, ListOf(t))(v) == Some("expected " + "list" + ", got " + show(v))
    ensures !v.VSet? ==> Compile(show, SetOf(t))(v) == Some("expected " + "set" + ", got " + show(v))
    ensures !v.VTuple? ==> Compile(show, TupleOf(t))(v) == Some("expected " + "tuple" + ", got " + show(v))
    ensures !v.VDict? ==> Compile(show, DictOf(key, t))(v) == Some("expected " + "dict" + ", got " + show(v))
  {
  }

  /** The complaints about an entry, in order: the kind of its key, what the key's checker says, and what the value's
      checker says, line by line, beside the key. */
  lemma EntryComplaints(show: Show, keyCheck: Checker, valueCheck: Checker, k: Value, v: Value, e: string, w: string)
    requires keyCheck(k) == Some(e) && e != "" && valueCheck(v) == Some(w) && w != "" && OneLine(w)
    ensures EntryErrors(show, Some(keyCheck), valueCheck, (k, v))
            == (if IsKey(k) then [] else ["expected " + "str|bytes|int" + ", got " + show(k)])
               + ["key" + ": " + e, "expected " + "str|bytes|int" + ", got " + show(k)] + [show(k) + ": " + w]
  {
    LineStays(w);
    assert Prefix(show(k), [w]) == [show(k) + ": " + w];
  }
}
