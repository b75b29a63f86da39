// Request dispatch: the first eligible route that answers, and re-dispatch when
// a handler returns another request.
module Dispatch {
  import opened Prelude
  import opened Filters
  import opened Templates
  import opened Paths
  import opened RouteIndex

  /** A request; `proxies` is the attribute that lists the routes already gone through, when it exists. */
  datatype Request = Request(
    path: string, verb: string, scope: Option<string>, content: nat, proxies: Option<seq<RouteSpec>>)

  /** A request object returned by a handler, with the list it already has, if any. */
  datatype Target = Target(path: string, verb: string, scope: Option<string>, content: nat, own: Option<seq<RouteSpec>>)

  /** What calling a route's handler comes to, parameter conversion and validation included. */
  datatype Outcome =
    | Nothing
    | Answer(response: nat, silent: bool)
    | Forward(target: Target)
    | Raises(error: string)

  type Handlers = (RouteSpec, Request) -> Outcome

  datatype Reply =
    | Answered(from: RouteSpec, response: nat)
    | Silent(from: RouteSpec)
    | MethodNotAllowed
    | PathNotFound
    | Failed(error: string)

  predicate Excluded(r: Route, req: Request) {
    req.proxies.Some? && r.spec in req.proxies.value
  }

  predicate PathFound(l: Languages, r: Route, req: Request) {
    !Excluded(r, req) && Accepted(l, r, req.scope, PathCandidates(req.path))
  }

  predicate VerbFits(r: Route, req: Request) {
    r.spec.verb == req.verb || r.spec.verb == "*"
  }

  /** The route is eligible and its handler has something to say. */
  predicate Answers(l: Languages, h: Handlers, r: Route, req: Request) {
    PathFound(l, r, req) && VerbFits(r, req) && h(r.spec, req) != Nothing
  }

  function Answering(l: Languages, h: Handlers, req: Request): Route -> bool {
    r => Answers(l, h, r, req)
  }

  function Finding(l: Languages, req: Request): Route -> bool {
    r => PathFound(l, r, req)
  }

  function First(p: Route -> bool, s: seq<Route>): (r: Option<Route>)
    ensures r.Some? ==> r.value in s && p(r.value)
    ensures r.None? ==> forall x :: x in s ==> !p(x)
  {
    if s == [] then None
    else
      assert s == [s[0]] + s[1..];
      if p(s[0]) then Some(s[0]) else First(p, s[1..])
  }

  /** The request for the next hop. The first hop gives the returned object a list of its own; later hops append to
      the list that object has, which need not be the current one, and fail when it has none. */
  function NextRequest(req: Request, via: RouteSpec, t: Target): Option<Request> {
    if req.proxies.None? then Some(Request(t.path, t.verb, t.scope, t.content, Some([via])))
    else if t.own.Some? then Some(Request(t.path, t.verb, t.scope, t.content, Some(t.own.value + [via])))
    else None
  }

  /** The returned object carries every route the request has gone through. */
  predicate Continues(req: Request, t: Target) {
    req.proxies.Some? && t.own.Some?
    ==> forall i :: 0 <= i < |req.proxies.value| ==> req.proxies.value[i] in t.own.value
  }

  /** So do all objects these handlers return: they hand on the request they were given, or a copy of its list. */
  ghost predicate CarriesOn(h: Handlers) {
    forall spec: RouteSpec, req: Request :: h(spec, req).Forward? ==> Continues(req, h(spec, req).target)
  }

  function Open(req: Request): Route -> bool {
    r => !Excluded(r, req)
  }

  /** Registered routes not yet gone through. */
  function Remaining(routes: seq<Route>, req: Request): nat {
    |Filter(Open(req), routes)|
  }

  lemma {:induction false} FilterShrinks(p: Route -> bool, q: Route -> bool, s: seq<Route>, x: Route)
    requires forall r :: q(r) ==> p(r)
    ensures |Filter(q, s)| <= |Filter(p, s)|
    ensures x in s && p(x) && !q(x) ==> |Filter(q, s)| < |Filter(p, s)|
  {
    if s != [] {
      FilterShrinks(p, q, s[1..], x);
      assert s == [s[0]] + s[1..];
    }
  }

  lemma HopShrinks(routes: seq<Route>, req: Request, r: Route, t: Target)
    requires r in routes && !Excluded(r, req) && Continues(req, t) && NextRequest(req, r.spec, t).Some?
    ensures Remaining(routes, NextRequest(req, r.spec, t).value) < Remaining(routes, req)
  {
    var next := NextRequest(req, r.spec, t).value;
    forall x: Route | Excluded(x, req) ensures Excluded(x, next) {
      var i :| 0 <= i < |req.proxies.value| && req.proxies.value[i] == x.spec;
      assert x.spec in t.own.value;
    }
    FilterShrinks(Open(req), Open(next), routes, r);
  }

  /** What one pass over the routes comes to: a reply, or the request of the next hop. */
  datatype Hop = Done(reply: Reply) | Onward(next: Request)

  function OneHop(l: Languages, routes: seq<Route>, h: Handlers, req: Request): Hop {
    var first := First(Answering(l, h, req), routes);
    if first.None? then
      Done(if First(Finding(l, req), routes).Some? then MethodNotAllowed else PathNotFound)
    else
      var spec := first.value.spec;
      var outcome := h(spec, req);
      if outcome.Answer? then
        Done(if outcome.silent then Silent(spec) else Answered(spec, outcome.response))
      else if outcome.Raises? then Done(Failed(outcome.error))
      else
        var next := NextRequest(req, spec, outcome.target);
        if next.None? then Done(Failed("AttributeError")) else Onward(next.value)
  }

  lemma OnwardShrinks(l: Languages, routes: seq<Route>, h: Handlers, req: Request)
    requires CarriesOn(h) && OneHop(l, routes, h, req).Onward?
    ensures Remaining(routes, OneHop(l, routes, h, req).next) < Remaining(routes, req)
  {
    var r := First(Answering(l, h, req), routes).value;
    HopShrinks(routes, req, r, h(r.spec, req).target);
  }

  /** Dispatch over a plain scan of the route list; every hop uses up a route, so it terminates. */
  function Dispatched(l: Languages, routes: seq<Route>, h: Handlers, req: Request): Reply
    requires CarriesOn(h)
    decreases Remaining(routes, req)
  {
    match OneHop(l, routes, h, req)
    case Done(reply) => reply
    case Onward(next) =>
      OnwardShrinks(l, routes, h, req);
      Dispatched(l, routes, h, next)
  }

  // ----- the method over the indexes -----

  /** The test the indexed loop makes, with the cheaper path check. */
  predicate AnswersIndexed(l: Languages, h: Handlers, r: Route, req: Request) {
    && !Excluded(r, req) && PathPasses(l, r.spec.path, PathCandidates(req.path))
    && VerbFits(r, req) && h(r.spec, req) != Nothing
  }

  function AnsweringIndexed(l: Languages, h: Handlers, req: Request): Route -> bool {
    r => AnswersIndexed(l, h, r, req)
  }

  function FindingIndexed(l: Languages, req: Request): Route -> bool {
    (r: Route) => !Excluded(r, req) && PathPasses(l, r.spec.path, PathCandidates(req.path))
  }

  lemma {:induction false} FirstOfFilter(p: Route -> bool, q: Route -> bool, both: Route -> bool, s: seq<Route>)
    requires forall i :: 0 <= i < |s| ==> both(s[i]) == (p(s[i]) && q(s[i]))
    ensures First(q, Filter(p, s)) == First(both, s)
  {
    if s != [] {
      forall i | 0 <= i < |s[1..]| ensures both(s[1..][i]) == (p(s[1..][i]) && q(s[1..][i])) {
        assert s[1..][i] == s[i + 1];
      }
      FirstOfFilter(p, q, both, s[1..]);
      assert both(s[0]) == (p(s[0]) && q(s[0]));
      if p(s[0]) {
        assert ([s[0]] + Filter(p, s[1..]))[1..] == Filter(p, s[1..]);
      }
    }
  }

  /** Bucket lookup changes neither the first answer nor whether the path is known. */
  lemma IndexKeepsFirst(app: App, l: Languages, h: Handlers, req: Request)
    requires app.Valid()
    ensures var found := Filter(ByCollection(req.scope, PathCandidates(req.path)), app.routes);
            && First(AnsweringIndexed(l, h, req), found) == First(Answering(l, h, req), app.routes)
            && First(FindingIndexed(l, req), found) == First(Finding(l, req), app.routes)
  {
    var candidates := PathCandidates(req.path);
    var collected := ByCollection(req.scope, candidates);
    forall i | 0 <= i < |app.routes|
      ensures collected(app.routes[i]) && PathPasses(l, app.routes[i].spec.path, candidates)
              <==> Accepted(l, app.routes[i], req.scope, candidates)
    {
      BucketsMissNothing(l, app.routes[i].spec.path, candidates);
    }
    FirstOfFilter(collected, AnsweringIndexed(l, h, req), Answering(l, h, req), app.routes);
    FirstOfFilter(collected, FindingIndexed(l, req), Finding(l, req), app.routes);
  }

  lemma FirstStep(p: Route -> bool, s: seq<Route>, i: nat)
    requires i < |s|
    ensures First(p, s[i..]) == if p(s[i]) then Some(s[i]) else First(p, s[i + 1..])
  {
    assert s[i..][1..] == s[i + 1..];
  }

  /** One pass of the loop over the candidate routes, for any handlers. */
  method DispatchOnce(app: App, l: Languages, h: Handlers, req: Request) returns (hop: Hop)
    requires app.Valid()
    ensures hop == OneHop(l, app.routes, h, req)
  {
    var candidates := PathCandidates(req.path);
    var found := app.CollectCandidateRoutes(req.scope, candidates);
    IndexKeepsFirst(app, l, h, req);
    var allowed: set<string> := {};
    var i := 0;
    assert found[0..] == found;
    while i < |found|
      invariant 0 <= i <= |found|
      invariant First(AnsweringIndexed(l, h, req), found) == First(AnsweringIndexed(l, h, req), found[i..])
      invariant allowed != {} ==> First(FindingIndexed(l, req), found).Some?
      invariant allowed == {} ==> First(FindingIndexed(l, req), found) == First(FindingIndexed(l, req), found[i..])
    {
      var r := found[i];
      i := i + 1;
      FirstStep(AnsweringIndexed(l, h, req), found, i - 1);
      FirstStep(FindingIndexed(l, req), found, i - 1);
      if req.proxies.Some? && r.spec in req.proxies.value {
        continue;
      }
      if !PathPasses(l, r.spec.path, candidates) {
        continue;
      }
      allowed := allowed + {r.spec.verb};
      if r.spec.verb != req.verb && r.spec.verb != "*" {
        continue;
      }
      var outcome := h(r.spec, req);
      if outcome == Nothing {
        continue;
      }
      if outcome.Forward? {
        var next := NextRequest(req, r.spec, outcome.target);
        if next.None? {
          return Done(Failed("AttributeError"));
        }
        return Onward(next.value);
      }
      if outcome.Raises? {
        return Done(Failed(outcome.error));
      }
      return Done(if outcome.silent then Silent(r.spec) else Answered(r.spec, outcome.response));
    }
    assert found[|found|..] == [];
    return Done(if allowed != {} then MethodNotAllowed else PathNotFound);
  }

  /** The recursion over hops, for handlers whose objects carry the list on. */
  method DispatchRequest(app: App, l: Languages, h: Handlers, req: Request) returns (reply: Reply)
    requires app.Valid() && CarriesOn(h)
    ensures reply == Dispatched(l, app.routes, h, req)
    decreases Remaining(app.routes, req)
  {
    var hop := DispatchOnce(app, l, h, req);
    match hop {
      case Done(answer) =>
        return answer;
      case Onward(next) =>
        OnwardShrinks(l, app.routes, h, req);
        reply := DispatchRequest(app, l, h, next);
    }
  }

  // ----- what a completed run answers -----

  /** The i-th route is the first one that answers. */
  predicate AnswersFirst(l: Languages, routes: seq<Route>, h: Handlers, req: Request, i: nat) {
    i < |routes| && Answers(l, h, routes[i], req) && forall j :: 0 <= j < i ==> !Answers(l, h, routes[j], req)
  }

  lemma {:induction false} FirstIsEarliest(p: Route -> bool, s: seq<Route>, i: nat)
    requires i < |s| && p(s[i]) && forall j :: 0 <= j < i ==> !p(s[j])
    ensures First(p, s) == Some(s[i])
    decreases i
  {
    if i > 0 {
      assert !p(s[0]);
      assert forall j :: 0 <= j < i - 1 ==> s[1..][j] == s[j + 1];
      FirstIsEarliest(p, s[1..], i - 1);
    }
  }

  /** A hop is decided by the earliest registered route that is eligible and returns something. */
  lemma EarliestAnswers(l: Languages, routes: seq<Route>, h: Handlers, req: Request, i: nat)
    requires AnswersFirst(l, routes, h, req, i)
    ensures var spec := routes[i].spec;
            var outcome, hop := h(spec, req), OneHop(l, routes, h, req);
            && (outcome.Answer?
                ==> hop == Done(if outcome.silent then Silent(spec) else Answered(spec, outcome.response)))
            && (outcome.Raises? ==> hop == Done(Failed(outcome.error)))
            && (outcome.Forward? && req.proxies.Some? && outcome.target.own.None?
                ==> hop == Done(Failed("AttributeError")))
            && (outcome.Forward? && (req.proxies.None? || outcome.target.own.Some?) ==>
                  hop == Onward(NextRequest(req, spec, outcome.target).value))
  {
    FirstIsEarliest(Answering(l, h, req), routes, i);
  }

  /** When no route answers, the error tells exactly whether some route not gone through knows the path. */
  lemma NoAnswerErrors(l: Languages, routes: seq<Route>, h: Handlers, req: Request)
    requires forall i :: 0 <= i < |routes| ==> !Answers(l, h, routes[i], req)
    ensures OneHop(l, routes, h, req) == Done(MethodNotAllowed)
            <==> exists i :: 0 <= i < |routes| && PathFound(l, routes[i], req)
    ensures OneHop(l, routes, h, req) == Done(PathNotFound)
            <==> forall i :: 0 <= i < |routes| ==> !PathFound(l, routes[i], req)
  {
    forall x | x in routes ensures !Answers(l, h, x, req) {
      var i :| 0 <= i < |routes| && routes[i] == x;
    }
    forall i | 0 <= i < |routes| ensures routes[i] in routes {}
  }

  // ----- what a hop says of the route it ends at -----

  /** The route is not one the request has gone through, its scope is asked for or is every scope, and its expression
      matches the path. */
  predicate Knows(l: Languages, s: RouteSpec, req: Request) {
    && (req.proxies.Some? ==> s !in req.proxies.value)
    && (s.scope == "*" || req.scope == Some(s.scope))
    && Compile(s.path).Ok?
    && exists c :: c in PathCandidates(req.path) && FullMatch(l, Compile(s.path).value, c)
  }

  lemma KnowsExactly(l: Languages, r: Route, req: Request)
    ensures PathFound(l, r, req) <==> Knows(l, r.spec, req)
  {
    var candidates, p := PathCandidates(req.path), Compile(r.spec.path);
    assert Some(r.spec.scope) in Scopes(req.scope) <==> r.spec.scope == "*" || req.scope == Some(r.spec.scope);
    if Knows(l, r.spec, req) {
      var c :| c in candidates && FullMatch(l, p.value, c);
      var i :| 0 <= i < |candidates| && candidates[i] == c;
      assert FullMatch(l, p.value, candidates[i]);
    }
    if Accepted(l, r, req.scope, candidates) {
      var i :| 0 <= i < |candidates| && FullMatch(l, p.value, candidates[i]);
      assert candidates[i] in candidates;
    }
  }

  /** The request that follows when a route passes on what its handler returned. */
  predicate FollowsFrom(h: Handlers, s: RouteSpec, req: Request, next: Request) {
    && h(s, req).Forward?
    && var t := h(s, req).target;
       && next.path == t.path && next.verb == t.verb && next.scope == t.scope && next.content == t.content
       && next.proxies.Some? && (req.proxies.Some? ==> t.own.Some?)
       && next.proxies.value == (if req.proxies.Some? then t.own.value + [s] else [s])
  }

  /** The reply that the handler's outcome makes. */
  predicate RepliesWith(o: Outcome, req: Request, s: RouteSpec, reply: Reply) {
    match reply
    case Answered(from, response) => from == s && o == Answer(response, false)
    case Silent(from) => from == s && o.Answer? && o.silent
    case Failed(error) =>
      o == Raises(error)
      || (error == "AttributeError" && o.Forward? && req.proxies.Some? && o.target.own.None?)
    case _ => false
  }

  /** Whatever route a hop ends at is registered, knows the path and takes the request's verb, and the reply, or the
      next request, is what its handler made of this one. Where it ends at none, no route knows the path, or some do
      but none of these that takes the verb has anything to say. */
  lemma HopTells(l: Languages, routes: seq<Route>, h: Handlers, req: Request)
    ensures var hop := OneHop(l, routes, h, req);
            if hop == Done(PathNotFound) then forall r :: r in routes ==> !Knows(l, r.spec, req)
            else if hop == Done(MethodNotAllowed) then
              && (exists r :: r in routes && Knows(l, r.spec, req))
              && (forall r :: r in routes && Knows(l, r.spec, req) && (r.spec.verb == req.verb || r.spec.verb == "*")
                    ==> h(r.spec, req) == Nothing)
            else
              exists r :: && r in routes && Knows(l, r.spec, req) && (r.spec.verb == req.verb || r.spec.verb == "*")
                          && (if hop.Onward? then FollowsFrom(h, r.spec, req, hop.next)
                              else RepliesWith(h(r.spec, req), req, r.spec, hop.reply))
  {
    forall r | r in routes ensures PathFound(l, r, req) <==> Knows(l, r.spec, req) {
      KnowsExactly(l, r, req);
    }
    var first := First(Answering(l, h, req), routes);
    if first.Some? {
      var r := first.value;
      assert r in routes && Answers(l, h, r, req);
    } else {
      forall r | r in routes ensures !Answers(l, h, r, req) {
        assert !Answering(l, h, req)(r);
      }
      var found := First(Finding(l, req), routes);
      if found.Some? {
        assert found.value in routes && PathFound(l, found.value, req);
      } else {
        forall r | r in routes ensures !PathFound(l, r, req) {
          assert !Finding(l, req)(r);
        }
      }
    }
  }

  /** When every route that knows the path is for another verb, the method is not allowed. */
  lemma OtherVerbsOnly(l: Languages, routes: seq<Route>, h: Handlers, req: Request)
    requires exists r :: r in routes && Knows(l, r.spec, req)
    requires forall r :: r in routes && Knows(l, r.spec, req) ==> r.spec.verb != req.verb && r.spec.verb != "*"
    ensures OneHop(l, routes, h, req) == Done(MethodNotAllowed)
  {
    HopTells(l, routes, h, req);
  }

  /** The routes that pass the request on, hop by hop. */
  function Trail(l: Languages, routes: seq<Route>, h: Handlers, req: Request): seq<RouteSpec>
    requires CarriesOn(h)
    decreases Remaining(routes, req)
  {
    var hop := OneHop(l, routes, h, req);
    if hop.Done? then []
    else
      OnwardShrinks(l, routes, h, req);
      [First(Answering(l, h, req), routes).value.spec] + Trail(l, routes, h, hop.next)
  }

  /** No route passes a request on twice, so a request makes at most as many hops as there are routes left. */
  lemma {:induction false} TrailNeverRepeats(l: Languages, routes: seq<Route>, h: Handlers, req: Request)
    requires CarriesOn(h)
    ensures var trail := Trail(l, routes, h, req);
            && |trail| <= Remaining(routes, req)
            && (forall i, j :: 0 <= i < j < |trail| ==> trail[i] != trail[j])
            && (req.proxies.Some? ==> forall i :: 0 <= i < |trail| ==> trail[i] !in req.proxies.value)
    decreases Remaining(routes, req)
  {
    var hop := OneHop(l, routes, h, req);
    if hop.Onward? {
      var r := First(Answering(l, h, req), routes).value;
      OnwardShrinks(l, routes, h, req);
      TrailNeverRepeats(l, routes, h, hop.next);
      var rest := Trail(l, routes, h, hop.next);
      if req.proxies.Some? {
        forall k | 0 <= k < |req.proxies.value| ensures req.proxies.value[k] in hop.next.proxies.value {
          assert req.proxies.value[k] in h(r.spec, req).target.own.value;
        }
      }
      forall i | 0 <= i < |rest| ensures rest[i] != r.spec && (req.proxies.Some? ==> rest[i] !in req.proxies.value) {
        assert rest[i] !in hop.next.proxies.value;
      }
    }
  }

  // ----- the trail is the run -----

  /** Where a request stands after a number of hops. */
  function Iterated(step: Request -> Hop, req: Request, n: nat): Hop {
    if n == 0 then Onward(req)
    else
      var earlier := Iterated(step, req, n - 1);
      if earlier.Done? then earlier else step(earlier.next)
  }

  function HopOf(l: Languages, routes: seq<Route>, h: Handlers): Request -> Hop {
    req => OneHop(l, routes, h, req)
  }

  lemma {:induction false} IteratedKeeps(step: Request -> Hop, inv: (nat, Request) -> bool, req: Request, n: nat)
    requires inv(0, req)
    requires forall m: nat, r: Request :: inv(m, r) ==> step(r).Onward? && inv(m + 1, step(r).next)
    ensures Iterated(step, req, n).Onward? && inv(n, Iterated(step, req, n).next)
  {
    if n > 0 {
      IteratedKeeps(step, inv, req, n - 1);
    }
  }

  lemma {:induction false} FirstHopFirst(step: Request -> Hop, req: Request, n: nat)
    ensures Iterated(step, req, n + 1) == if step(req).Done? then step(req) else Iterated(step, step(req).next, n)
  {
    if n > 0 {
      FirstHopFirst(step, req, n - 1);
    }
  }

  lemma {:induction false} IteratedEnds(step: Request -> Hop, measure: Request -> nat, req: Request, n: nat)
    requires forall r: Request :: step(r).Onward? ==> measure(step(r).next) < measure(r)
    requires n > measure(req)
    ensures Iterated(step, req, n).Done?
    decreases n
  {
    FirstHopFirst(step, req, n - 1);
    if step(req).Onward? {
      IteratedEnds(step, measure, step(req).next, n - 1);
    }
  }

  /** The trail has one route for every hop that passes the request on, and the hop behind the last one makes the reply.
      */
  lemma {:induction false} TrailIsTheRun(l: Languages, routes: seq<Route>, h: Handlers, req: Request)
    requires CarriesOn(h)
    ensures var n := |Trail(l, routes, h, req)|;
            && Iterated(HopOf(l, routes, h), req, n).Onward?
            && Iterated(HopOf(l, routes, h), req, n + 1) == Done(Dispatched(l, routes, h, req))
    decreases Remaining(routes, req)
  {
    var hop := OneHop(l, routes, h, req);
    TrailUnfolds(l, routes, h, req);
    if hop.Onward? {
      OnwardShrinks(l, routes, h, req);
      TrailIsTheRun(l, routes, h, hop.next);
      OneHopBefore(HopOf(l, routes, h), req, |Trail(l, routes, h, hop.next)|, Dispatched(l, routes, h, hop.next));
    } else {
      OnlyHop(HopOf(l, routes, h), req);
    }
  }

  lemma TrailUnfolds(l: Languages, routes: seq<Route>, h: Handlers, req: Request)
    requires CarriesOn(h)
    ensures var hop := OneHop(l, routes, h, req);
            if hop.Done? then |Trail(l, routes, h, req)| == 0 && Dispatched(l, routes, h, req) == hop.reply
            else
              && |Trail(l, routes, h, req)| == 1 + |Trail(l, routes, h, hop.next)|
              && Dispatched(l, routes, h, req) == Dispatched(l, routes, h, hop.next)
  {
  }

  lemma OnlyHop(step: Request -> Hop, req: Request)
    ensures Iterated(step, req, 0) == Onward(req) && Iterated(step, req, 1) == step(req)
  {
    assert Iterated(step, req, 0) == Onward(req);
  }

  lemma OneHopBefore(step: Request -> Hop, req: Request, n: nat, reply: Reply)
    requires step(req).Onward? && Iterated(step, step(req).next, n).Onward?
    requires Iterated(step, step(req).next, n + 1) == Done(reply)
    ensures Iterated(step, req, n + 1).Onward? && Iterated(step, req, n + 2) == Done(reply)
  {
    FirstHopFirst(step, req, n);
    FirstHopFirst(step, req, n + 1);
  }

  // ----- objects that do not carry the list on -----

  /** With objects that carry the list on, a run of hops ends within the routes left. */
  lemma EndsWithin(l: Languages, routes: seq<Route>, h: Handlers, req: Request, n: nat)
    requires CarriesOn(h) && n > Remaining(routes, req)
    ensures Iterated(HopOf(l, routes, h), req, n).Done?
  {
    var step := HopOf(l, routes, h);
    forall r: Request | step(r).Onward? ensures Remaining(routes, step(r).next) < Remaining(routes, r) {
      OnwardShrinks(l, routes, h, r);
    }
    IteratedEnds(step, r => Remaining(routes, r), req, n);
  }

  const HERE := RouteSpec("*", "*", "/a", 0, 0)
  const THERE := RouteSpec("*", "*", "/a", 1, 0)

  /** Each handler returns the one object that belongs to it, whose list holds that handler's route only. */
  function PingPong(): Handlers {
    (spec: RouteSpec, req: Request) =>
      Forward(Target("/a", "get", None, 0, Some(if req.proxies.Some? then seq(|req.proxies.value|, i => spec) else [])))
  }

  /** The request that one of the two objects makes. */
  predicate From(spec: RouteSpec, req: Request) {
    && req.path == "/a" && req.verb == "get" && req.scope == None
    && req.proxies.Some? && |req.proxies.value| > 0
    && forall i :: 0 <= i < |req.proxies.value| ==> req.proxies.value[i] == spec
  }

  lemma PathKnown(l: Languages, spec: RouteSpec, req: Request)
    requires spec == HERE || spec == THERE
    requires req.path == "/a" && req.verb == "get" && req.scope == None
    ensures Accepted(l, Route(spec.handler, spec), req.scope, PathCandidates(req.path))
            && VerbFits(Route(spec.handler, spec), req)
  {
    var candidates := PathCandidates("/a");
    assert candidates[0] == "/a";
    StaticScans("/a");
    StaticMatchesItself(l, "/a", "/a");
    assert "/a" != "*" by { assert |"/a"| == 2 && |"*"| == 1; }
    assert FullMatch(l, Compile("/a").value, candidates[0]);
    assert Scopes(None)[1] == Some("*");
  }

  function TwoRoutes(): seq<Route> {
    [Route(0, HERE), Route(1, THERE)]
  }

  function Turn(n: nat): RouteSpec {
    if n % 2 == 0 then HERE else THERE
  }

  lemma OtherAnswers(l: Languages, routes: seq<Route>, h: Handlers, req: Request, other: RouteSpec, spec: RouteSpec)
    requires routes == TwoRoutes() && h == PingPong()
    requires (spec == HERE && other == THERE) || (spec == THERE && other == HERE)
    requires From(other, req)
    ensures AnswersFirst(l, routes, h, req, if spec == HERE then 0 else 1)
  {
    PathKnown(l, spec, req);
    assert routes[if spec == HERE then 0 else 1] == Route(spec.handler, spec);
    assert req.proxies.value[0] == other;
    assert HERE != THERE;
  }

  lemma Bounces(l: Languages, routes: seq<Route>, h: Handlers, req: Request, other: RouteSpec, spec: RouteSpec)
    requires routes == TwoRoutes() && h == PingPong()
    requires (spec == HERE && other == THERE) || (spec == THERE && other == HERE)
    requires From(other, req)
    ensures OneHop(l, routes, h, req).Onward? && From(spec, OneHop(l, routes, h, req).next)
  {
    var i := if spec == HERE then 0 else 1;
    OtherAnswers(l, routes, h, req, other, spec);
    assert routes[i].spec == spec;
    EarliestAnswers(l, routes, h, req, i);
  }

  ghost predicate TakesTurns(step: Request -> Hop) {
    forall m: nat, r: Request :: From(Turn(m), r) ==> step(r).Onward? && From(Turn(m + 1), step(r).next)
  }

  lemma BouncingTakesTurns(l: Languages)
    ensures TakesTurns(HopOf(l, TwoRoutes(), PingPong()))
  {
    var step := HopOf(l, TwoRoutes(), PingPong());
    forall m: nat, r: Request | From(Turn(m), r) ensures step(r).Onward? && From(Turn(m + 1), step(r).next) {
      Bounces(l, TwoRoutes(), PingPong(), r, Turn(m), Turn(m + 1));
    }
  }

  lemma TurnsNeverEnd(step: Request -> Hop, req: Request, n: nat)
    requires TakesTurns(step) && From(HERE, req)
    ensures Iterated(step, req, n).Onward?
  {
    IteratedKeeps(step, (m: nat, r: Request) => From(Turn(m), r), req, n);
  }

  /** Two stored objects, returned in turn by two routes, carry lists that never hold both: dispatch never ends. */
  lemma NeverEnds(l: Languages, req: Request, n: nat)
    requires From(HERE, req)
    ensures Iterated(HopOf(l, TwoRoutes(), PingPong()), req, n).Onward?
  {
    BouncingTakesTurns(l);
    TurnsNeverEnd(HopOf(l, TwoRoutes(), PingPong()), req, n);
  }
}
