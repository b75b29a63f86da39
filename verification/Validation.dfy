// Schemas of handler signatures, and the validation of parameters against them.
module Validation {
  import opened Prelude
  import opened Checkers

  datatype Kind = Ordinary | VarPositional | VarKeyword

  datatype Param = Param(name: string, kind: Kind, annotation: Annotation, hasDefault: bool)

  datatype Field = Field(name: string, required: bool, checker: Checker)

  datatype BodyField = BodyField(name: string, model: nat, required: bool)

  datatype Schema = Schema(fields: seq<Field>, names: set<string>, hasKwargs: bool, bodyFields: seq<BodyField>)

  predicate Supplied(p: Param) {
    p.name == "request" || p.name == "proto"
  }

  predicate Accepted(p: Param) {
    !Supplied(p) && p.kind.Ordinary?
  }

  function Models(ts: seq<Annotation>): seq<nat> {
    if ts == [] then [] else (if ts[0].Model? then [ts[0].name] else []) + Models(ts[1..])
  }

  function CountNotNone(ts: seq<Annotation>): nat {
    if ts == [] then 0 else (if ts[0].TNone? then 0 else 1) + CountNotNone(ts[1..])
  }

  /** The body model of an annotation: a model, or a union of one model and None. */
  function BodyModel(t: Annotation): Result<Option<nat>> {
    match t
    case Model(name) => Ok(Some(name))
    case UnionOf(alternatives) =>
      var models := Models(alternatives);
      if models == [] then Ok(None)
      else if |models| == 1 && CountNotNone(alternatives) == 1 then Ok(Some(models[0]))
      else Err("GN body model union supports only Model | None")
    case _ => Ok(None)
  }

  predicate IsField(p: Param) {
    Accepted(p) && BodyModel(p.annotation) == Ok(None)
  }

  predicate IsBody(p: Param) {
    Accepted(p) && BodyModel(p.annotation).Ok? && BodyModel(p.annotation).value.Some?
  }

  // ----- the schema -----

  /** The schema so far after each parameter. */
  function Extended(show: Show, s: Schema, p: Param): Result<Schema> {
    if Supplied(p) then Ok(s)
    else if p.kind.VarKeyword? then Ok(s.(hasKwargs := true))
    else if p.kind.VarPositional? then Ok(s)
    else
      var body :- BodyModel(p.annotation);
      if body.Some? then
        Ok(s.(bodyFields := s.bodyFields + [BodyField(p.name, body.value, !p.hasDefault)], names := s.names + {p.name}))
      else
        Ok(s.(fields := s.fields + [Field(p.name, !p.hasDefault, Compile(show, p.annotation))],
              names := s.names + {p.name}))
  }

  function Gathered(show: Show, params: seq<Param>): Result<Schema> {
    if params == [] then Ok(Schema([], {}, false, []))
    else
      var s :- Gathered(show, params[..|params| - 1]);
      Extended(show, s, params[|params| - 1])
  }

  function SchemaOf(show: Show, params: seq<Param>): Result<Schema> {
    var s :- Gathered(show, params);
    if |s.bodyFields| > 1 then Err("Only one GN body model parameter is supported per route") else Ok(s)
  }

  method BuildSchema(show: Show, params: seq<Param>) returns (r: Result<Schema>)
    ensures r == SchemaOf(show, params)
  {
    var s := Schema([], {}, false, []);
    var i := 0;
    while i < |params|
      invariant 0 <= i <= |params|
      invariant Gathered(show, params[..i]) == Ok(s)
    {
      var p := params[i];
      assert params[..i + 1][..i] == params[..i];
      var next := Extended(show, s, p);
      if next.Err? {
        GatheredFails(show, params, i + 1);
        return Err(next.reason);
      }
      s := next.value;
      i := i + 1;
    }
    assert params[..|params|] == params;
    if |s.bodyFields| > 1 {
      return Err("Only one GN body model parameter is supported per route");
    }
    return Ok(s);
  }

  /** A parameter that cannot be used fails the whole signature. */
  lemma {:induction false} GatheredFails(show: Show, params: seq<Param>, i: nat)
    requires i <= |params| && Gathered(show, params[..i]).Err?
    ensures Gathered(show, params) == Gathered(show, params[..i])
    decreases |params| - i
  {
    if i == |params| {
      assert params[..i] == params;
    } else {
      assert params[..i + 1][..i] == params[..i];
      GatheredFails(show, params, i + 1);
    }
  }

  /** What a schema says of a signature. */
  ghost predicate Describes(show: Show, s: Schema, params: seq<Param>) {
    && (s.hasKwargs <==> exists p :: p in params && !Supplied(p) && p.kind.VarKeyword?)
    && (forall n :: n in s.names <==> exists p :: p in params && Accepted(p) && p.name == n)
    && (forall p :: p in params && IsField(p) ==> FieldOf(show, p) in s.fields)
    && (forall f :: f in s.fields ==> exists p :: p in params && IsField(p) && f == FieldOf(show, p))
    && (forall p :: p in params && Accepted(p) ==> IsField(p) || IsBody(p))
  }

  function FieldOf(show: Show, p: Param): Field {
    Field(p.name, !p.hasDefault, Compile(show, p.annotation))
  }

  lemma {:induction false} GatheredDescribes(show: Show, params: seq<Param>)
    requires Gathered(show, params).Ok?
    ensures Describes(show, Gathered(show, params).value, params)
  {
    if params != [] {
      var earlier, p := params[..|params| - 1], params[|params| - 1];
      GatheredDescribes(show, earlier);
      assert params == earlier + [p];
      ExtendedDescribes(show, Gathered(show, earlier).value, earlier, p);
    }
  }

  lemma ExtendedDescribes(show: Show, s: Schema, earlier: seq<Param>, p: Param)
    requires Describes(show, s, earlier) && Extended(show, s, p).Ok?
    ensures Describes(show, Extended(show, s, p).value, earlier + [p])
  {
    var params, t := earlier + [p], Extended(show, s, p).value;
    assert p in params;
    assert forall q :: q in earlier ==> q in params;
    assert forall q :: q in params ==> q in earlier || q == p;
    forall n ensures n in t.names <==> exists q :: q in params && Accepted(q) && q.name == n {
      if n in s.names {
        var q :| q in earlier && Accepted(q) && q.name == n;
        assert q in params;
      }
    }
    forall f | f in t.fields ensures exists q :: q in params && IsField(q) && f == FieldOf(show, q) {
      if f in s.fields {
        var q :| q in earlier && IsField(q) && f == FieldOf(show, q);
        assert q in params;
      }
    }
    if s.hasKwargs {
      var q :| q in earlier && !Supplied(q) && q.kind.VarKeyword?;
      assert q in params;
    }
  }

  // ----- validation -----

  type Args = seq<(string, Value)>

  function Lookup(given: Args, name: string): Option<Value> {
    if given == [] then None else if given[0].0 == name then Some(given[0].1) else Lookup(given[1..], name)
  }

  function Extra(name: string): string {
    "unexpected parameter '" + name + "'"
  }

  function Missing(name: string): string {
    "missing required parameter '" + name + "'"
  }

  function ExtraErrors(s: Schema, given: Args): seq<string> {
    if given == [] then []
    else ExtraErrors(s, given[..|given| - 1])
         + (if given[|given| - 1].0 in s.names then [] else [Extra(given[|given| - 1].0)])
  }

  function FieldErrors(f: Field, given: Args): seq<string> {
    var v := Lookup(given, f.name);
    if v.None? then (if f.required then [Missing(f.name)] else [])
    else if Fails(f.checker(v.value)) then Prefix(f.name, Lines(Checkers.Text(f.checker(v.value))))
    else []
  }

  function AllFieldErrors(fields: seq<Field>, given: Args): seq<string> {
    if fields == [] then []
    else AllFieldErrors(fields[..|fields| - 1], given) + FieldErrors(fields[|fields| - 1], given)
  }

  function Errors(s: Schema, given: Args): seq<string> {
    (if s.hasKwargs then [] else ExtraErrors(s, given)) + AllFieldErrors(s.fields, given)
  }

  method CollectExtras(s: Schema, given: Args) returns (errors: seq<string>)
    ensures errors == ExtraErrors(s, given)
  {
    errors := [];
    var i := 0;
    while i < |given|
      invariant 0 <= i <= |given|
      invariant errors == ExtraErrors(s, given[..i])
    {
      assert given[..i + 1][..i] == given[..i];
      if given[i].0 !in s.names {
        errors := errors + [Extra(given[i].0)];
      }
      i := i + 1;
    }
    assert given[..|given|] == given;
  }

  method CheckField(f: Field, given: Args) returns (errors: seq<string>)
    ensures errors == FieldErrors(f, given)
  {
    var v := Lookup(given, f.name);
    if v.None? {
      return if f.required then [Missing(f.name)] else [];
    }
    var e := f.checker(v.value);
    if Fails(e) {
      return Prefix(f.name, Lines(e.value));
    }
    return [];
  }

  method CheckFields(fields: seq<Field>, given: Args) returns (errors: seq<string>)
    ensures errors == AllFieldErrors(fields, given)
  {
    errors := [];
    var i := 0;
    while i < |fields|
      invariant 0 <= i <= |fields|
      invariant errors == AllFieldErrors(fields[..i], given)
    {
      var more := CheckField(fields[i], given);
      FieldErrorsNext(fields, given, i);
      errors := errors + more;
      i := i + 1;
    }
    assert fields[..|fields|] == fields;
  }

  method ValidateParams(given: Args, s: Schema) returns (r: Option<string>)
    ensures r == if Errors(s, given) == [] then None else Some(Join(Errors(s, given)))
  {
    var errors: seq<string> := [];
    if !s.hasKwargs {
      errors := CollectExtras(s, given);
    }
    var more := CheckFields(s.fields, given);
    errors := errors + more;
    return if errors == [] then None else Some(Join(errors));
  }

  lemma FieldErrorsNext(fields: seq<Field>, given: Args, i: nat)
    requires i < |fields|
    ensures AllFieldErrors(fields[..i + 1], given) == AllFieldErrors(fields[..i], given) + FieldErrors(fields[i], given)
  {
    assert fields[..i + 1][..i] == fields[..i];
  }

  // ----- what is accepted -----

  lemma {:induction false} NoExtras(s: Schema, given: Args)
    ensures |ExtraErrors(s, given)| == 0 <==> forall i :: 0 <= i < |given| ==> given[i].0 in s.names
  {
    if given != [] {
      var n := |given| - 1;
      NoExtras(s, given[..n]);
      assert forall i :: 0 <= i < n ==> given[..n][i] == given[i];
    }
  }

  lemma {:induction false} NoFieldErrors(fields: seq<Field>, given: Args)
    ensures |AllFieldErrors(fields, given)| == 0 <==> forall f :: f in fields ==> |FieldErrors(f, given)| == 0
  {
    if fields != [] {
      var n := |fields| - 1;
      NoFieldErrors(fields[..n], given);
      assert fields == fields[..n] + [fields[n]];
    }
  }

  /** The value under a name is that of the first entry with it. */
  lemma {:induction false} LookupFirst(given: Args, name: string)
    ensures Lookup(given, name).None? <==> forall i :: 0 <= i < |given| ==> given[i].0 != name
    ensures Lookup(given, name).Some? ==>
              exists i :: && 0 <= i < |given| && given[i] == (name, Lookup(given, name).value)
                          && forall j :: 0 <= j < i ==> given[j].0 != name
  {
    if given != [] {
      var rest := given[1..];
      assert forall i :: 0 <= i < |rest| ==> rest[i] == given[i + 1];
      if given[0].0 == name {
        assert given[0] == (name, Lookup(given, name).value);
      } else {
        LookupFirst(rest, name);
        if Lookup(rest, name).Some? {
          var i :| && 0 <= i < |rest| && rest[i] == (name, Lookup(rest, name).value)
                   && forall j :: 0 <= j < i ==> rest[j].0 != name;
          assert given[i + 1] == (name, Lookup(given, name).value);
          assert forall j :: 0 < j < i + 1 ==> given[j] == rest[j - 1];
        }
      }
    }
  }

  /** A dictionary has each name once. */
  predicate Dictionary(given: Args) {
    forall i, j :: 0 <= i < j < |given| ==> given[i].0 != given[j].0
  }

  /** In a dictionary, the value under a name is exactly the one that was entered with it. */
  lemma LookupExactly(given: Args, name: string, v: Value)
    requires Dictionary(given)
    ensures Lookup(given, name) == Some(v) <==> (name, v) in given
  {
    LookupFirst(given, name);
    if (name, v) in given {
      var i :| 0 <= i < |given| && given[i] == (name, v);
      assert given[i].0 == name;
    }
  }

  lemma FieldExactly(show: Show, p: Param, given: Args)
    ensures |FieldErrors(FieldOf(show, p), given)| == 0 <==> FieldSatisfied(p, given)
  {
    LookupFirst(given, p.name);
    var v := Lookup(given, p.name);
    CompilerCorrect(show, p.annotation);
    if v.Some? {
      assert Verdict(Compile(show, p.annotation)(v.value), v.value, p.annotation);
    }
  }

  /** The first argument under the parameter's name has its type, or there is none and the parameter has a default. */
  predicate FieldSatisfied(p: Param, given: Args) {
    || (p.hasDefault && forall i :: 0 <= i < |given| ==> given[i].0 != p.name)
    || exists i :: && 0 <= i < |given| && given[i].0 == p.name && HasType(given[i].1, p.annotation)
                   && forall j :: 0 <= j < i ==> given[j].0 != p.name
  }

  /** The parameter takes arguments by keyword beyond those it names. */
  predicate TakesMore(p: Param) {
    p.name !in {"request", "proto"} && p.kind == VarKeyword
  }

  /** The parameter is one that a caller may name. */
  predicate Named(p: Param) {
    p.name !in {"request", "proto"} && p.kind == Ordinary
  }

  /** The annotation mentions no body model. */
  predicate Plain(t: Annotation) {
    && !t.Model?
    && (t.UnionOf? ==> forall i :: 0 <= i < |t.alternatives| ==> !t.alternatives[i].Model?)
  }

  /** A call is well formed: nothing extra unless the handler takes **kwargs, and every field satisfied. */
  ghost predicate WellCalled(params: seq<Param>, given: Args) {
    && ((exists p :: p in params && TakesMore(p))
        || forall i :: 0 <= i < |given| ==> exists p :: p in params && Named(p) && p.name == given[i].0)
    && (forall p :: p in params && Named(p) && Plain(p.annotation) ==> FieldSatisfied(p, given))
  }

  lemma {:induction false} UnionModels(ts: seq<Annotation>)
    ensures Models(ts) == [] <==> forall i :: 0 <= i < |ts| ==> !ts[i].Model?
    ensures |Models(ts)| <= CountNotNone(ts)
    ensures |Models(ts)| == CountNotNone(ts) <==> forall i :: 0 <= i < |ts| ==> ts[i].Model? || ts[i].TNone?
    ensures forall n :: n in Models(ts) <==> exists i :: 0 <= i < |ts| && ts[i] == Model(n)
  {
    if ts != [] {
      var rest := ts[1..];
      UnionModels(rest);
      assert forall i :: 0 <= i < |rest| ==> rest[i] == ts[i + 1];
      assert forall i :: 0 < i < |ts| ==> ts[i] == rest[i - 1];
      var head := if ts[0].Model? then [ts[0].name] else [];
      assert Models(ts) == head + Models(rest);
      forall n ensures n in Models(ts) <==> exists i :: 0 <= i < |ts| && ts[i] == Model(n) {
        if n in Models(rest) {
          var i :| 0 <= i < |rest| && rest[i] == Model(n);
          assert ts[i + 1] == Model(n);
        }
        if ts[0] == Model(n) {
          assert n in head;
        }
      }
    }
  }

  lemma {:induction false} OneModel(ts: seq<Annotation>)
    ensures |Models(ts)| <= 1 <==> forall i, j :: 0 <= i < j < |ts| ==> !(ts[i].Model? && ts[j].Model?)
  {
    if ts != [] {
      var rest := ts[1..];
      OneModel(rest);
      UnionModels(rest);
      assert forall i :: 0 <= i < |rest| ==> rest[i] == ts[i + 1];
      assert forall i :: 0 < i < |ts| ==> ts[i] == rest[i - 1];
      if ts[0].Model? {
        assert |Models(ts)| == 1 + |Models(rest)|;
      }
    }
  }

  /** One model, alone or beside None, and nothing else. */
  predicate ModelOrNone(t: Annotation, name: nat) {
    || t == Model(name)
    || (&& t.UnionOf? && (exists i :: 0 <= i < |t.alternatives| && t.alternatives[i] == Model(name))
        && (forall i :: 0 <= i < |t.alternatives| ==> t.alternatives[i].Model? || t.alternatives[i].TNone?)
        && (forall i, j :: 0 <= i < j < |t.alternatives| ==> !(t.alternatives[i].Model? && t.alternatives[j].Model?)))
  }

  /** An annotation makes a field when it mentions no model, a body when it is one model, alone or beside None, and is
      refused otherwise. */
  lemma BodyModelExactly(t: Annotation)
    ensures BodyModel(t) == Ok(None) <==> Plain(t)
    ensures forall name: nat :: BodyModel(t) == Ok(Some(name)) <==> ModelOrNone(t, name)
  {
    if t.UnionOf? {
      var ts := t.alternatives;
      UnionModels(ts);
      OneModel(ts);
      forall name: nat ensures BodyModel(t) == Ok(Some(name)) <==> ModelOrNone(t, name) {
        if ModelOrNone(t, name) {
          assert name in Models(ts);
        }
        if BodyModel(t) == Ok(Some(name)) {
          assert name in Models(ts);
        }
      }
    }
  }

  lemma FieldsArePlain(p: Param)
    ensures IsField(p) <==> Named(p) && Plain(p.annotation)
    ensures Accepted(p) <==> Named(p)
    ensures !Supplied(p) && p.kind.VarKeyword? <==> TakesMore(p)
  {
    BodyModelExactly(p.annotation);
  }

  /** For every signature that has a schema, and all arguments, validation returns None exactly for the well-formed
      calls; body models are left to the body. */
  lemma ValidatesExactly(show: Show, params: seq<Param>, given: Args)
    requires SchemaOf(show, params).Ok?
    ensures Errors(SchemaOf(show, params).value, given) == [] <==> WellCalled(params, given)
  {
    var s := SchemaOf(show, params).value;
    forall p: Param { FieldsArePlain(p); }
    GatheredDescribes(show, params);
    NoExtras(s, given);
    NoFieldErrors(s.fields, given);
    forall p | p in params && IsField(p)
      ensures FieldOf(show, p) in s.fields
      ensures |FieldErrors(FieldOf(show, p), given)| == 0 <==> FieldSatisfied(p, given)
    {
      FieldExactly(show, p, given);
    }
    var extras := if s.hasKwargs then [] else ExtraErrors(s, given);
    assert Errors(s, given) == [] <==> |extras| == 0 && |AllFieldErrors(s.fields, given)| == 0;
    if WellCalled(params, given) {
      forall f | f in s.fields ensures |FieldErrors(f, given)| == 0 {
        var p :| p in params && IsField(p) && f == FieldOf(show, p);
      }
    }
  }

  /** For the dictionary of arguments a caller gives: every named parameter that is not a body finds its own value in
      it, of its own type, or has a default; and every name in it is a parameter's, unless there are **kwargs. */
  lemma ValidatesDictionary(show: Show, params: seq<Param>, given: Args)
    requires SchemaOf(show, params).Ok? && Dictionary(given)
    ensures Errors(SchemaOf(show, params).value, given) == []
            <==> && (|| (exists p :: p in params && TakesMore(p))
                     || forall name, v :: (name, v) in given ==> exists p :: p in params && Named(p) && p.name == name)
                 && (forall p :: p in params && Named(p) && Plain(p.annotation) ==>
                       && (forall v :: (p.name, v) in given ==> HasType(v, p.annotation))
                       && (p.hasDefault || exists v :: (p.name, v) in given))
  {
    ValidatesExactly(show, params, given);
    forall p | p in params
      ensures FieldSatisfied(p, given)
              <==> && (forall v :: (p.name, v) in given ==> HasType(v, p.annotation))
                   && (p.hasDefault || exists v :: (p.name, v) in given)
    {
      SatisfiedByMembers(p, given);
    }
    forall i | 0 <= i < |given| ensures given[i] in given && given[i] == (given[i].0, given[i].1) {}
  }

  lemma SatisfiedByMembers(p: Param, given: Args)
    requires Dictionary(given)
    ensures FieldSatisfied(p, given)
            <==> && (forall v :: (p.name, v) in given ==> HasType(v, p.annotation))
                 && (p.hasDefault || exists v :: (p.name, v) in given)
  {
    if i :| 0 <= i < |given| && given[i].0 == p.name {
      assert given[i] == (p.name, given[i].1) && given[i] in given;
      forall v | (p.name, v) in given ensures v == given[i].1 {
        var j :| 0 <= j < |given| && given[j] == (p.name, v);
        assert given[j].0 == p.name;
      }
    } else {
      assert forall i :: 0 <= i < |given| ==> given[i].0 != p.name;
      assert forall v :: (p.name, v) !in given;
    }
  }

  /** Every parameter a caller may name is a plain one or a body. */
  ghost predicate BodiesLegal(params: seq<Param>) {
    forall p :: p in params && Named(p) ==> Plain(p.annotation) || Body(p)
  }

  ghost predicate NoBody(params: seq<Param>) {
    forall i :: 0 <= i < |params| && Named(params[i]) ==> !Body(params[i])
  }

  ghost predicate AtMostOneBody(params: seq<Param>) {
    forall i, j :: 0 <= i < j < |params| && Named(params[i]) && Named(params[j]) ==>
      !(Body(params[i]) && Body(params[j]))
  }

  /** A signature has a schema exactly when no parameter a caller may name mixes a body model with another type, and at
      most one is a body. */
  lemma SchemaExists(show: Show, params: seq<Param>)
    ensures SchemaOf(show, params).Ok? <==> BodiesLegal(params) && AtMostOneBody(params)
  {
    GatheredBodies(show, params);
  }

  ghost predicate Body(p: Param) {
    exists name: nat :: ModelOrNone(p.annotation, name)
  }

  lemma BodyExactly(p: Param)
    ensures Named(p) ==> (IsBody(p) <==> Body(p))
    ensures Named(p) ==> (BodyModel(p.annotation).Ok? <==> Plain(p.annotation) || Body(p))
    ensures !(Plain(p.annotation) && Body(p))
  {
    BodyModelExactly(p.annotation);
    if IsBody(p) {
      assert ModelOrNone(p.annotation, BodyModel(p.annotation).value.value);
    }
  }

  lemma OneMore(earlier: seq<Param>, p: Param)
    ensures BodiesLegal(earlier + [p])
            <==> BodiesLegal(earlier) && (Named(p) ==> Plain(p.annotation) || Body(p))
    ensures NoBody(earlier + [p]) <==> NoBody(earlier) && !(Named(p) && Body(p))
    ensures AtMostOneBody(earlier + [p])
            <==> AtMostOneBody(earlier) && (NoBody(earlier) || !(Named(p) && Body(p)))
  {
    var params := earlier + [p];
    assert forall q :: q in params <==> q in earlier || q == p;
    assert forall i :: 0 <= i < |earlier| ==> params[i] == earlier[i];
    assert params[|earlier|] == p;
  }

  lemma {:induction false} GatheredBodies(show: Show, params: seq<Param>)
    ensures Gathered(show, params).Ok? <==> BodiesLegal(params)
    ensures Gathered(show, params).Ok? ==> (|Gathered(show, params).value.bodyFields| == 0 <==> NoBody(params))
    ensures Gathered(show, params).Ok? ==> (|Gathered(show, params).value.bodyFields| <= 1 <==> AtMostOneBody(params))
  {
    if params != [] {
      var n := |params| - 1;
      var earlier, p := params[..n], params[n];
      GatheredBodies(show, earlier);
      FieldsArePlain(p);
      BodyExactly(p);
      assert params == earlier + [p];
      OneMore(earlier, p);
    }
  }

  // ----- what the complaints say -----

  lemma {:induction false} ExtraNamed(s: Schema, given: Args, i: nat)
    requires i < |given| && given[i].0 !in s.names
    ensures "unexpected parameter '" + given[i].0 + "'" in ExtraErrors(s, given)
  {
    var n := |given| - 1;
    if i < n {
      assert given[..n][i] == given[i];
      ExtraNamed(s, given[..n], i);
    }
  }

  lemma {:induction false} FieldErrorsIn(fields: seq<Field>, given: Args, f: Field, e: string)
    requires f in fields && e in FieldErrors(f, given)
    ensures e in AllFieldErrors(fields, given)
  {
    var n := |fields| - 1;
    if fields[n] != f {
      assert fields == fields[..n] + [fields[n]];
      FieldErrorsIn(fields[..n], given, f, e);
    }
  }

  /** Every extra name, every missing one and every ill-typed value has its complaint, which names it. */
  lemma ComplaintsName(s: Schema, given: Args, i: nat, f: Field, e: string)
    ensures !s.hasKwargs && i < |given| && given[i].0 !in s.names ==>
              "unexpected parameter '" + given[i].0 + "'" in Errors(s, given)
    ensures f in s.fields && f.required && Lookup(given, f.name).None? ==>
              "missing required parameter '" + f.name + "'" in Errors(s, given)
    ensures f in s.fields && Lookup(given, f.name).Some? && f.checker(Lookup(given, f.name).value) == Some(e)
            && e != "" && OneLine(e) ==>
              f.name + ": " + e in Errors(s, given)
  {
    if !s.hasKwargs && i < |given| && given[i].0 !in s.names {
      ExtraNamed(s, given, i);
    }
    if f in s.fields && f.required && Lookup(given, f.name).None? {
      FieldErrorsIn(s.fields, given, f, Missing(f.name));
    }
    if f in s.fields && Lookup(given, f.name).Some? && f.checker(Lookup(given, f.name).value) == Some(e)
       && e != "" && OneLine(e)
    {
      LineStays(e);
      assert Prefix(f.name, [e])[0] == f.name + ": " + e;
      FieldErrorsIn(s.fields, given, f, f.name + ": " + e);
    }
  }
}
