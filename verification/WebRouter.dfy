/** Dispatching a request over the router's unordered table of routes. */
module WebRouter {
  import opened Wrappers
  import opened WebRequest
  import opened UrlPattern

  /** A registered handler function. */
  datatype Handler = Handler(id: nat)
  type Routes = map<string, Handler>

  const HTTP_VERBS := {"GET", "POST", "PUT", "PATCH", "HEAD", "OPTIONS", "DELETE"}

  datatype Dispatch =
    | Failed(error: string)
    | Exact(handler: Handler, request: Parsed)
    | Matched(pattern: string, handler: Handler, request: Parsed, params: Bindings)
    | NotFound(url: string)

  /** An iteration order of a route table: every pattern once. */
  ghost predicate IsOrder(order: seq<string>, table: Routes) {
    && (forall p :: p in order <==> p in table)
    && Distinct(order)
  }

  ghost predicate Distinct(order: seq<string>) {
    forall i, j :: 0 <= i < j < |order| ==> order[i] != order[j]
  }

  lemma DistinctParts(a: seq<string>, p: string, b: seq<string>)
    requires Distinct(a) && Distinct(b) && p !in a && p !in b && forall x :: x in a ==> x !in b
    ensures Distinct(a + [p] + b)
  {
    var all := a + [p] + b;
    forall i, j | 0 <= i < j < |all| ensures all[i] != all[j] {
      if i < |a| < j {
        assert all[i] in a && all[j] in b;
      } else if |a| < i {
        assert all[i] == b[i - |a| - 1] && all[j] == b[j - |a| - 1];
      }
    }
  }

  /** The first pattern of an order whose match is not empty. */
  function FirstMatch(order: seq<string>, path: string): Option<string> {
    if order == [] then None
    else if MatchURL(order[0], path) != map[] then Some(order[0])
    else FirstMatch(order[1..], path)
  }

  /** What a request is dispatched to when the table is ranged over in a given order. */
  function DispatchIn(order: seq<string>, table: Routes, request: Parsed, url: string): Dispatch
    requires forall p :: p in order ==> p in table
  {
    if request.path in table then Exact(table[request.path], request)
    else
      FirstMatchListed(order, request.path);
      match FirstMatch(order, request.path)
      case None => NotFound(url)
      case Some(p) => Matched(p, table[p], request, MatchURL(p, request.path))
  }

  lemma {:induction false} FirstMatchListed(order: seq<string>, path: string)
    ensures FirstMatch(order, path).Some? ==>
              FirstMatch(order, path).value in order && MatchURL(FirstMatch(order, path).value, path) != map[]
    ensures FirstMatch(order, path).None? ==> forall p :: p in order ==> MatchURL(p, path) == map[]
  {
    if order != [] {
      FirstMatchListed(order[1..], path);
      assert forall p :: p in order <==> p == order[0] || p in order[1..];
    }
  }

  /** What dispatching is meant to do: the exact route, otherwise a pattern that truly matches, otherwise 404. */
  ghost predicate Dispatched(table: Routes, request: Parsed, url: string, d: Dispatch) {
    var us := Segments(request.path);
    && (request.path in table <==> d.Exact?)
    && (d.Exact? ==> d == Exact(table[request.path], request))
    && (d.Matched? ==>
          && d.pattern in table && d.handler == table[d.pattern] && d.request == request
          && d.params == MatchURL(d.pattern, request.path)
          && Agrees(Segments(d.pattern), us) && HasPlaceholder(Segments(d.pattern)))
    && (d.NotFound? <==>
          && request.path !in table
          && forall p :: p in table ==> !(Agrees(Segments(p), us) && HasPlaceholder(Segments(p))))
    && (d.NotFound? ==> d.url == url)
    && !d.Failed?
  }

  /** The exact route wins; otherwise a pattern that truly matches; 404 exactly when there is neither. */
  lemma DispatchMeans(order: seq<string>, table: Routes, request: Parsed, url: string)
    requires IsOrder(order, table)
    ensures Dispatched(table, request, url, DispatchIn(order, table, request, url))
  {
    FirstMatchListed(order, request.path);
    forall p | p in table
      ensures MatchURL(p, request.path) != map[]
              <==> Agrees(Segments(p), Segments(request.path)) && HasPlaceholder(Segments(p))
    {
      MatchIff(p, request.path);
    }
  }

  class Router {
    var routes: map<string, Routes>

    ghost predicate Valid()
      reads this
    {
      routes.Keys == HTTP_VERBS
    }

    constructor ()
      ensures Valid() && routes.Keys == {"GET", "POST", "PUT", "PATCH", "HEAD", "OPTIONS", "DELETE"}
      ensures forall m :: m in routes ==> routes[m] == map[]
    {
      routes := map m | m in HTTP_VERBS :: map[];
    }

    /** The body of get, post, put, patch, head, options and delete. */
    method Register(verb: string, url: string, handler: Handler)
      requires Valid() && verb in HTTP_VERBS
      modifies this
      ensures Valid() && routes == old(routes)[verb := old(routes)[verb][url := handler]]
    {
      routes := routes[verb := routes[verb][url := handler]];
    }

    /** The dispatch of handle; the order in which it ranged over the routes is a ghost result. */
    method Handle(verb: string, url: string) returns (d: Dispatch, ghost order: seq<string>)
      requires Valid() && verb in HTTP_VERBS
      ensures IsOrder(order, routes[verb])
      ensures d == match RequestOf(verb, url)
                   case Err(e) => Failed(e)
                   case Ok(request) => DispatchIn(order, routes[verb], request, url)
      ensures match RequestOf(verb, url)
              case Err(e) => d == Failed(e)
              case Ok(request) => Dispatched(routes[verb], request, url, d)
      ensures verb != "GET" && url in routes[verb] ==> d == Exact(routes[verb][url], Parsed(url, map[]))
    {
      var table := routes[verb];
      order := ListKeys(table.Keys);
      var parsed := ParseRequest(verb, url);
      if parsed.Err? {
        return Failed(parsed.error), order;
      }
      var request := parsed.value;
      if request.path in table {
        DispatchMeans(order, table, request, url);
        return Exact(table[request.path], request), order;
      }
      var pattern, params;
      pattern, params, order := RangeOver(table, request.path);
      FirstMatchListed(order, request.path);
      DispatchMeans(order, table, request, url);
      if pattern.Some? {
        return Matched(pattern.value, table[pattern.value], request, params), order;
      }
      return NotFound(url), order;
    }
  }

  /** The loop over the route table, in an order that pairs leaves open: the first non-empty match. */
  method RangeOver(table: Routes, path: string)
    returns (found: Option<string>, params: Bindings, ghost order: seq<string>)
    ensures IsOrder(order, table) && found == FirstMatch(order, path)
    ensures found.Some? ==> params == MatchURL(found.value, path)
  {
    var rest := table.Keys;
    ghost var seen: seq<string> := [];
    while rest != {}
      invariant rest <= table.Keys
      invariant forall p :: p in seen <==> p in table.Keys - rest
      invariant Distinct(seen)
      invariant forall p :: p in seen ==> MatchURL(p, path) == map[]
    {
      var pattern :| pattern in rest;
      assert pattern !in seen;
      params := MatchURLPattern(pattern, path);
      rest := rest - {pattern};
      if params != map[] {
        ghost var others := ListKeys(rest);
        MatchAfter(seen, pattern, others, path);
        DistinctParts(seen, pattern, others);
        return Some(pattern), params, seen + [pattern] + others;
      }
      seen := seen + [pattern];
    }
    FirstMatchListed(seen, path);
    return None, map[], seen;
  }

  lemma {:induction false} MatchAfter(seen: seq<string>, p: string, others: seq<string>, path: string)
    requires (forall q :: q in seen ==> MatchURL(q, path) == map[]) && MatchURL(p, path) != map[]
    ensures FirstMatch(seen + [p] + others, path) == Some(p)
  {
    if seen != [] {
      assert seen[0] in seen;
      assert (seen + [p] + others)[1..] == seen[1..] + [p] + others;
      MatchAfter(seen[1..], p, others, path);
    }
  }

  lemma {:induction false} ListKeys(keys: set<string>) returns (order: seq<string>)
    ensures forall p :: p in order <==> p in keys
    ensures Distinct(order)
  {
    if keys == {} {
      order := [];
    } else {
      var p :| p in keys;
      var rest := ListKeys(keys - {p});
      order := [p] + rest;
    }
  }

  /** At most one pattern of the table matches the path. */
  ghost predicate OneMatch(table: Routes, path: string) {
    forall p, q :: p in table && q in table && MatchURL(p, path) != map[] && MatchURL(q, path) != map[] ==> p == q
  }

  /**
   Order independence. Every two iteration orders dispatch a request alike exactly when its path is an
   exact route or at most one pattern matches it.
   */
  lemma OrderIndependentIff(table: Routes, request: Parsed, url: string)
    ensures request.path in table || OneMatch(table, request.path)
            <==> forall o1, o2 :: IsOrder(o1, table) && IsOrder(o2, table)
                   ==> DispatchIn(o1, table, request, url) == DispatchIn(o2, table, request, url)
  {
    if request.path in table || OneMatch(table, request.path) {
      forall o1, o2 | IsOrder(o1, table) && IsOrder(o2, table)
        ensures DispatchIn(o1, table, request, url) == DispatchIn(o2, table, request, url)
      {
        FirstMatchListed(o1, request.path);
        FirstMatchListed(o2, request.path);
      }
    } else {
      var p, q :| p in table && q in table && p != q
                  && MatchURL(p, request.path) != map[] && MatchURL(q, request.path) != map[];
      var o1 := OrderFrom(table, p);
      var o2 := OrderFrom(table, q);
      ChosenFirst(o1, table, request, url, p);
      ChosenFirst(o2, table, request, url, q);
    }
  }

  /** Any pattern of the table comes first in some order. */
  lemma OrderFrom(table: Routes, p: string) returns (order: seq<string>)
    requires p in table
    ensures IsOrder(order, table) && order != [] && order[0] == p
  {
    var rest := ListKeys(table.Keys - {p});
    order := [p] + rest;
  }

  lemma ChosenFirst(order: seq<string>, table: Routes, request: Parsed, url: string, p: string)
    requires IsOrder(order, table) && order != [] && order[0] == p
    requires request.path !in table && MatchURL(p, request.path) != map[]
    ensures DispatchIn(order, table, request, url).Matched? && DispatchIn(order, table, request, url).pattern == p
  {
  }
}
