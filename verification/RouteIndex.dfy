// The application's route list and its three bucketed indexes, against a plain
// scan of the list.
module RouteIndex {
  import opened Prelude
  import opened Filters
  import opened Templates
  import opened Paths

  /** What a route was registered with; `tag` stands for the fields dispatch does not look at. */
  datatype RouteSpec = RouteSpec(scope: string, verb: string, path: string, handler: nat, tag: nat)

  /** A registered route: its identity and its specification. */
  datatype Route = Route(id: nat, spec: RouteSpec)

  datatype Bucket = Static(path: string) | Prefix(segment: string) | Fallback

  function BucketOf(path: string): Bucket {
    if IsStatic(path) then Static(path)
    else
      match FirstLiteralSegment(path)
      case None => Fallback
      case Some(segment) => Prefix(segment)
  }

  function Scopes(requested: Option<string>): seq<Option<string>> {
    if requested == Some("*") then [Some("*")] else [requested, Some("*")]
  }

  /** A route is asked for exactly when it belongs to the scope of the request or to every scope. */
  lemma ScopesExactly(requested: Option<string>, scope: string)
    ensures Some(scope) in Scopes(requested) <==> scope == "*" || requested == Some(scope)
  {
    assert Some("*") in Scopes(requested);
  }

  /** The test a surviving route passes: equality for a static route, the expression otherwise. */
  predicate PathPasses(l: Languages, path: string, candidates: seq<string>) {
    if IsStatic(path) then path in candidates
    else
      var p := Compile(path);
      p.Ok? && exists i :: 0 <= i < |candidates| && FullMatch(l, p.value, candidates[i])
  }

  /** The plain scan: the route's scope is asked for and its expression matches a candidate. */
  predicate Accepted(l: Languages, r: Route, requested: Option<string>, candidates: seq<string>) {
    && Some(r.spec.scope) in Scopes(requested)
    && var p := Compile(r.spec.path);
       p.Ok? && exists i :: 0 <= i < |candidates| && FullMatch(l, p.value, candidates[i])
  }

  predicate InBucket(r: Route, scope: string, bucket: Bucket) {
    r.spec.scope == scope && BucketOf(r.spec.path) == bucket
  }

  function FirstSegments(candidates: seq<string>): set<string> {
    set i | 0 <= i < |candidates| && FirstSegment(candidates[i]).Some? :: FirstSegment(candidates[i]).value
  }

  /** The buckets a lookup visits. */
  predicate Visited(bucket: Bucket, candidates: seq<string>) {
    match bucket
    case Static(path) => path in candidates
    case Prefix(segment) => segment in FirstSegments(candidates)
    case Fallback => true
  }

  predicate Collected(r: Route, requested: Option<string>, candidates: seq<string>) {
    Some(r.spec.scope) in Scopes(requested) && Visited(BucketOf(r.spec.path), candidates)
  }

  /** A route whose expression matches sits in a bucket that is visited, and passes the cheaper test too. */
  lemma BucketsMissNothing(l: Languages, path: string, candidates: seq<string>)
    requires Compile(path).Ok?
    ensures (exists i :: 0 <= i < |candidates| && FullMatch(l, Compile(path).value, candidates[i]))
            <==> Visited(BucketOf(path), candidates) && PathPasses(l, path, candidates)
  {
    if IsStatic(path) {
      assert path != "*" && !(|path| > 1 && path[0] == '!');
      forall i | 0 <= i < |candidates|
        ensures FullMatch(l, Compile(path).value, candidates[i]) <==> candidates[i] == path
      {
        StaticMatchesItself(l, path, candidates[i]);
      }
    } else if FirstLiteralSegment(path).Some? {
      var segment := FirstLiteralSegment(path).value;
      forall i | 0 <= i < |candidates| && FullMatch(l, Compile(path).value, candidates[i])
        ensures segment in FirstSegments(candidates)
      {
        PruningIsSound(l, path, segment, candidates[i]);
      }
    }
  }

  /** A lookup leaves out every static route of another path, and every route with another literal first segment. */
  lemma LookupLeavesOut(r: Route, requested: Option<string>, candidates: seq<string>)
    requires Collected(r, requested, candidates)
    ensures r.spec.scope == "*" || requested == Some(r.spec.scope)
    ensures r.spec.path != "*" && '{' !in r.spec.path && (r.spec.path == "" || r.spec.path[0] != '!') ==>
              r.spec.path in candidates
    ensures '{' in r.spec.path && FirstLiteralSegment(r.spec.path).Some? ==>
              exists c :: c in candidates && FirstSegment(c) == FirstLiteralSegment(r.spec.path)
  {
    ScopesExactly(requested, r.spec.scope);
    if '{' in r.spec.path && FirstLiteralSegment(r.spec.path).Some? {
      var i :| 0 <= i < |candidates| && FirstSegment(candidates[i]) == FirstLiteralSegment(r.spec.path);
      assert candidates[i] in candidates;
    }
  }

  // ----- sorting by registration order -----

  predicate OrderKnown(order: map<nat, nat>, s: seq<Route>) {
    forall i :: 0 <= i < |s| ==> s[i].id in order
  }

  predicate OrderedBy(order: map<nat, nat>, s: seq<Route>) {
    OrderKnown(order, s) && forall i, j :: 0 <= i < j < |s| ==> order[s[i].id] < order[s[j].id]
  }

  function Insert(order: map<nat, nat>, r: Route, s: seq<Route>): (t: seq<Route>)
    requires OrderKnown(order, [r] + s)
    ensures forall x :: x in t <==> x == r || x in s
  {
    if s == [] then [r]
    else
      assert ([r] + s)[0] == r && ([r] + s)[1] == s[0];
      assert s == [s[0]] + s[1..];
      if order[r.id] < order[s[0].id] then [r] + s
      else
        assert forall i :: 0 <= i < |s| ==> ([r] + s)[i + 1] == s[i];
        [s[0]] + Insert(order, r, s[1..])
  }

  lemma {:induction false} InsertOrders(order: map<nat, nat>, r: Route, s: seq<Route>)
    requires r.id in order && OrderKnown(order, [r] + s) && OrderedBy(order, s)
    requires forall i :: 0 <= i < |s| ==> order[s[i].id] != order[r.id]
    ensures OrderedBy(order, Insert(order, r, s))
    decreases |s|
  {
    assert forall i :: 0 <= i < |s| ==> ([r] + s)[i + 1] == s[i];
    assert ([r] + s)[0] == r;
    if s != [] && order[r.id] >= order[s[0].id] {
      InsertOrders(order, r, s[1..]);
      var t := Insert(order, r, s[1..]);
      forall i | 0 <= i < |t| ensures order[s[0].id] < order[t[i].id] {
        assert t[i] in t;
        if t[i] != r {
          var j :| 0 <= j < |s[1..]| && s[1..][j] == t[i];
          assert s[j + 1] == t[i];
        }
      }
    }
  }

  /** Two lists in registration order with the same routes are the same list. */
  lemma {:induction false} OrderedUnique(order: map<nat, nat>, a: seq<Route>, b: seq<Route>)
    requires OrderedBy(order, a) && OrderedBy(order, b)
    requires forall x :: x in a <==> x in b
    ensures a == b
    decreases |a|
  {
    if a == [] {
      assert forall i :: 0 <= i < |b| ==> b[i] in a;
    } else {
      assert a[0] in a;
      var j :| 0 <= j < |b| && b[j] == a[0];
      assert b[0] in b;
      var k :| 0 <= k < |a| && a[k] == b[0];
      assert a[0] == b[0];
      forall x ensures x in a[1..] <==> x in b[1..] {
        TailMembers(order, a, x);
        TailMembers(order, b, x);
      }
      OrderedUnique(order, a[1..], b[1..]);
      assert a == [a[0]] + a[1..] && b == [b[0]] + b[1..];
    }
  }

  lemma TailMembers(order: map<nat, nat>, s: seq<Route>, x: Route)
    requires OrderedBy(order, s) && s != []
    ensures x in s[1..] <==> x in s && x != s[0]
  {
    if x in s[1..] {
      var i :| 0 <= i < |s[1..]| && s[1..][i] == x;
      assert s[i + 1] == x;
    }
    if x in s && x != s[0] {
      var i :| 0 <= i < |s| && s[i] == x;
      assert s[1..][i - 1] == x;
    }
  }

  lemma {:induction false} FilterOrdered(order: map<nat, nat>, p: Route -> bool, s: seq<Route>)
    requires OrderedBy(order, s)
    ensures OrderedBy(order, Filter(p, s))
  {
    if s != [] {
      FilterOrdered(order, p, s[1..]);
      var t := Filter(p, s[1..]);
      forall i | 0 <= i < |t| ensures t[i].id in order && order[s[0].id] < order[t[i].id] {
        assert t[i] in t;
        var j :| 0 <= j < |s[1..]| && s[1..][j] == t[i];
        assert s[j + 1] == t[i];
      }
    }
  }

  method SortedByOrder(order: map<nat, nat>, byId: map<nat, Route>) returns (s: seq<Route>)
    requires forall id :: id in byId ==> id in order && byId[id].id == id
    requires forall i, j :: i in order && j in order && i != j ==> order[i] != order[j]
    ensures OrderedBy(order, s)
    ensures forall r :: r in s <==> r.id in byId && byId[r.id] == r
  {
    s := [];
    var todo := byId.Keys;
    while todo != {}
      invariant todo <= byId.Keys
      invariant OrderedBy(order, s)
      invariant forall r :: r in s <==> r.id in byId && r.id !in todo && byId[r.id] == r
      decreases |todo|
    {
      var id :| id in todo;
      var r := byId[id];
      forall i | 0 <= i < |s| ensures order[s[i].id] != order[r.id] {
        assert s[i] in s;
      }
      InsertOrders(order, r, s);
      s := Insert(order, r, s);
      todo := todo - {id};
    }
  }

  // ----- the indexes -----

  type TwoLevel = map<string, map<string, seq<Route>>>

  datatype Index = Index(statics: TwoLevel, prefixes: TwoLevel, fallbacks: map<string, seq<Route>>)

  function Lookup(m: TwoLevel, scope: string, key: string): seq<Route> {
    if scope in m && key in m[scope] then m[scope][key] else []
  }

  function Appended(m: TwoLevel, scope: string, key: string, r: Route): TwoLevel {
    var inner := if scope in m then m[scope] else map[];
    m[scope := inner[key := (if key in inner then inner[key] else []) + [r]]]
  }

  function FallbackOf(m: map<string, seq<Route>>, scope: string): seq<Route> {
    if scope in m then m[scope] else []
  }

  function BucketRoutes(ix: Index, scope: string, bucket: Bucket): seq<Route> {
    match bucket
    case Static(path) => Lookup(ix.statics, scope, path)
    case Prefix(segment) => Lookup(ix.prefixes, scope, segment)
    case Fallback => FallbackOf(ix.fallbacks, scope)
  }

  function Indexed(ix: Index, r: Route): Index {
    var scope := r.spec.scope;
    match BucketOf(r.spec.path)
    case Static(path) => ix.(statics := Appended(ix.statics, scope, path, r))
    case Prefix(segment) => ix.(prefixes := Appended(ix.prefixes, scope, segment, r))
    case Fallback => ix.(fallbacks := ix.fallbacks[scope := FallbackOf(ix.fallbacks, scope) + [r]])
  }

  function ByBucket(scope: string, bucket: Bucket): Route -> bool {
    r => InBucket(r, scope, bucket)
  }

  function ByCollection(requested: Option<string>, candidates: seq<string>): Route -> bool {
    r => Collected(r, requested, candidates)
  }

  function ByPath(l: Languages, candidates: seq<string>): Route -> bool {
    (r: Route) => PathPasses(l, r.spec.path, candidates)
  }

  function ByScan(l: Languages, requested: Option<string>, candidates: seq<string>): Route -> bool {
    r => Accepted(l, r, requested, candidates)
  }

  /** Every bucket holds the routes that belong in it, in registration order. */
  ghost predicate IndexAgrees(ix: Index, routes: seq<Route>) {
    forall scope: string, bucket: Bucket ::
      BucketRoutes(ix, scope, bucket) == Filter(ByBucket(scope, bucket), routes)
  }

  lemma BucketGrows(ix: Index, r: Route, scope: string, bucket: Bucket)
    ensures BucketRoutes(Indexed(ix, r), scope, bucket)
            == BucketRoutes(ix, scope, bucket) + (if InBucket(r, scope, bucket) then [r] else [])
  {
  }

  lemma IndexedAgrees(ix: Index, routes: seq<Route>, r: Route)
    requires IndexAgrees(ix, routes)
    ensures IndexAgrees(Indexed(ix, r), routes + [r])
  {
    forall scope: string, bucket: Bucket
      ensures BucketRoutes(Indexed(ix, r), scope, bucket) == Filter(ByBucket(scope, bucket), routes + [r])
    {
      BucketGrows(ix, r, scope, bucket);
      FilterSnoc(ByBucket(scope, bucket), routes, r);
    }
  }

  // ----- the application object -----

  class App {
    var routes: seq<Route>
    var orderSeq: nat
    var order: map<nat, nat>
    var isStatic: map<nat, bool>
    var staticIndex: TwoLevel
    var prefixIndex: TwoLevel
    var fallbackIndex: map<string, seq<Route>>

    function Indexes(): Index
      reads this
    {
      Index(staticIndex, prefixIndex, fallbackIndex)
    }

    ghost predicate Valid()
      reads this
    {
      && orderSeq == |routes|
      && (forall i :: 0 <= i < |routes| ==> routes[i].id in order && order[routes[i].id] == i)
      && (forall id :: id in order ==> order[id] < |routes| && routes[order[id]].id == id)
      && (forall i :: 0 <= i < |routes| ==>
            routes[i].id in isStatic && isStatic[routes[i].id] == IsStatic(routes[i].spec.path))
      && (forall i :: 0 <= i < |routes| ==> Compile(routes[i].spec.path).Ok?)
      && IndexAgrees(Indexes(), routes)
    }

    constructor ()
      ensures Valid() && routes == []
    {
      routes := [];
      orderSeq := 0;
      order, isStatic := map[], map[];
      staticIndex, prefixIndex, fallbackIndex := map[], map[], map[];
    }

    /** Identities are those of live objects: a new route's differs from every registered one's.
        An expression that does not compile raises before anything is stored. */
    method RegisterRoute(id: nat, scope: string, verb: string, path: string, handler: nat, tag: nat) returns (ok: bool)
      requires Valid() && id !in order
      modifies this
      ensures Valid()
      ensures var stored := if path == "" then "/" else path;
              && ok == Compile(stored).Ok?
              && routes == if ok then old(routes) + [Route(id, RouteSpec(scope, verb, stored, handler, tag))]
                           else old(routes)
    {
      var stored := if path == "" then "/" else path;
      var pattern := CompilePath(stored);
      if pattern.Err? {
        return false;
      }
      var r := Route(id, RouteSpec(scope, verb, stored, handler, tag));
      IndexedAgrees(Indexes(), routes, r);
      routes := routes + [r];
      IndexRoute(r);
      return true;
    }

    method IndexRoute(r: Route)
      modifies this`order, this`orderSeq, this`isStatic, this`staticIndex, this`prefixIndex, this`fallbackIndex
      ensures order == old(order)[r.id := old(orderSeq)] && orderSeq == old(orderSeq) + 1
      ensures isStatic == old(isStatic)[r.id := IsStatic(r.spec.path)]
      ensures Indexes() == Indexed(old(Indexes()), r)
    {
      order := order[r.id := orderSeq];
      orderSeq := orderSeq + 1;
      var static_ := IsStatic(r.spec.path);
      isStatic := isStatic[r.id := static_];
      var scope := r.spec.scope;
      if static_ {
        staticIndex := Appended(staticIndex, scope, r.spec.path, r);
        return;
      }
      var segment := FirstLiteralSegment(r.spec.path);
      if segment.None? {
        fallbackIndex := fallbackIndex[scope := FallbackOf(fallbackIndex, scope) + [r]];
        return;
      }
      prefixIndex := Appended(prefixIndex, scope, segment.value, r);
    }

    method AddBucket(byId: map<nat, Route>, scope: string, bucket: Bucket, ghost done: set<(string, Bucket)>)
      returns (grown: map<nat, Route>)
      requires Valid() && Gathered(routes, byId, done)
      ensures Gathered(routes, grown, done + {(scope, bucket)})
    {
      grown := byId;
      var found := BucketRoutes(Indexes(), scope, bucket);
      var i := 0;
      while i < |found|
        invariant 0 <= i <= |found|
        invariant forall id :: id in grown ==> id == grown[id].id && grown[id] in routes
        invariant forall r :: r in routes ==>
                    (r.id in grown <==> (r.spec.scope, BucketOf(r.spec.path)) in done || r in found[..i])
      {
        assert found[i] in found;
        var r := found[i];
        assert found[..i + 1] == found[..i] + [r];
        forall x | x in routes && x.id == r.id ensures x == r {
          SameId(x, r);
        }
        if r.id !in grown {
          grown := grown[r.id := r];
        }
        i := i + 1;
      }
      assert found[..|found|] == found;
    }

    lemma SameId(a: Route, b: Route)
      requires Valid() && a in routes && b in routes && a.id == b.id
      ensures a == b
    {
      var i :| 0 <= i < |routes| && routes[i] == a;
      var j :| 0 <= j < |routes| && routes[j] == b;
    }

    /** Bucket by bucket, then sorted: exactly the collected routes, in registration order, each once. */
    method CollectCandidateRoutes(requested: Option<string>, candidates: seq<string>) returns (found: seq<Route>)
      requires Valid()
      ensures found == Filter(ByCollection(requested, candidates), routes)
    {
      var byId: map<nat, Route> := map[];
      ghost var done: set<(string, Bucket)> := {};
      var segments := FirstSegments(candidates);
      var scopes := Scopes(requested);
      var i := 0;
      while i < |scopes|
        invariant 0 <= i <= |scopes|
        invariant Gathered(routes, byId, done)
        invariant DoneScopes(done, scopes[..i], candidates)
      {
        assert scopes[..i + 1] == scopes[..i] + [scopes[i]];
        if scopes[i].Some? {
          byId, done := CollectScope(byId, scopes[i].value, candidates, segments, done);
        }
        i := i + 1;
      }
      assert scopes[..|scopes|] == scopes;
      found := SortedByOrder(order, byId);
      GatheredIsWanted(byId, done, found, requested, candidates);
      FilterOrdered(order, ByCollection(requested, candidates), routes);
      OrderedUnique(order, found, Filter(ByCollection(requested, candidates), routes));
    }

    lemma GatheredIsWanted(
      byId: map<nat, Route>, done: set<(string, Bucket)>, found: seq<Route>, requested: Option<string>,
      candidates: seq<string>)
      requires Valid() && Gathered(routes, byId, done) && DoneScopes(done, Scopes(requested), candidates)
      requires forall r :: r in found <==> r.id in byId && byId[r.id] == r
      ensures forall r :: r in found <==> r in Filter(ByCollection(requested, candidates), routes)
    {
      forall r ensures r in found <==> r in routes && Collected(r, requested, candidates) {
        if r in routes {
          assert (r.spec.scope, BucketOf(r.spec.path)) in done <==> Collected(r, requested, candidates);
          if r.id in byId {
            SameId(byId[r.id], r);
          }
        }
      }
    }

    method CollectScope(byId: map<nat, Route>, scope: string, candidates: seq<string>, segments: set<string>,
                        ghost done: set<(string, Bucket)>)
      returns (grown: map<nat, Route>, ghost finished: set<(string, Bucket)>)
      requires Valid() && Gathered(routes, byId, done) && segments == FirstSegments(candidates)
      ensures Gathered(routes, grown, finished)
      ensures forall s: string, bucket: Bucket ::
                (s, bucket) in finished <==> (s, bucket) in done || (s == scope && Visited(bucket, candidates))
    {
      grown, finished := byId, done;
      var i := 0;
      while i < |candidates|
        invariant 0 <= i <= |candidates|
        invariant Gathered(routes, grown, finished)
        invariant forall s: string, bucket: Bucket :: (s, bucket) in finished <==>
                    (s, bucket) in done || (s == scope && bucket.Static? && bucket.path in candidates[..i])
      {
        assert candidates[..i + 1] == candidates[..i] + [candidates[i]];
        grown := AddBucket(grown, scope, Static(candidates[i]), finished);
        finished := finished + {(scope, Static(candidates[i]))};
        i := i + 1;
      }
      assert candidates[..|candidates|] == candidates;
      var todo := segments;
      while todo != {}
        invariant todo <= segments
        invariant Gathered(routes, grown, finished)
        invariant forall s: string, bucket: Bucket :: (s, bucket) in finished <==>
                    || (s, bucket) in done
                    || (s == scope && bucket.Static? && bucket.path in candidates)
                    || (s == scope && bucket.Prefix? && bucket.segment in segments - todo)
        decreases |todo|
      {
        var segment :| segment in todo;
        grown := AddBucket(grown, scope, Prefix(segment), finished);
        finished := finished + {(scope, Prefix(segment))};
        todo := todo - {segment};
      }
      grown := AddBucket(grown, scope, Fallback, finished);
      finished := finished + {(scope, Fallback)};
    }

    /** The index refines the plain scan: after the path test, the routes left are exactly those whose
        scope and expression match, in registration order and without repetition. */
    lemma IndexRefinesScan(l: Languages, requested: Option<string>, candidates: seq<string>)
      requires Valid()
      ensures Filter(ByPath(l, candidates), Filter(ByCollection(requested, candidates), routes))
              == Filter(ByScan(l, requested, candidates), routes)
      ensures OrderedBy(order, Filter(ByScan(l, requested, candidates), routes))
    {
      var collected, passes := ByCollection(requested, candidates), ByPath(l, candidates);
      var accepted := ByScan(l, requested, candidates);
      FilterTwice(collected, passes, routes);
      var both := Both(collected, passes);
      forall i | 0 <= i < |routes| ensures both(routes[i]) == accepted(routes[i]) {
        BucketsMissNothing(l, routes[i].spec.path, candidates);
      }
      FilterAgree(both, accepted, routes);
      FilterOrdered(order, accepted, routes);
    }
  }

  /** The routes gathered so far are those of the buckets done. */
  ghost predicate Gathered(routes: seq<Route>, byId: map<nat, Route>, done: set<(string, Bucket)>) {
    && (forall id :: id in byId ==> id == byId[id].id && byId[id] in routes)
    && (forall r :: r in routes ==> (r.id in byId <==> (r.spec.scope, BucketOf(r.spec.path)) in done))
  }

  ghost predicate DoneScopes(done: set<(string, Bucket)>, scopes: seq<Option<string>>, candidates: seq<string>) {
    forall s: string, bucket: Bucket :: (s, bucket) in done <==> Some(s) in scopes && Visited(bucket, candidates)
  }
}
