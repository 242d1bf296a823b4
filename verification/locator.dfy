/**
 * Locating the caching policy of the current page: the global policy of the
 * `http_caching` tag, overridden field by field by the first `route` subtag
 * whose `url` is the page.
 */
module Locator {
  import opened Wrappers
  import opened Policies

  /** The exception the locator raises when the configuration is malformed. */
  datatype Error = XMLException(message: string)

  const MissingTagMessage := "Tag 'http_caching' missing"
  const MissingUrlMessage := "Attribute 'url' is mandatory for 'route' subtag of 'http_caching' tag"

  /**
   * A `route` subtag: its `url` attribute (absent is null), the policy its
   * attributes give, and its own child elements, read the same way.
   */
  datatype RouteTag = RouteTag(url: Option<string>, policy: Policy<string>, children: seq<RouteTag>)

  /** The `http_caching` tag: the policy its own attributes give, and its `route` subtags in document order. */
  datatype CachingTag = CachingTag(policy: Policy<string>, routes: seq<RouteTag>)

  /** The search stops at a route without `url` (an error) or at a route whose `url` is the page. */
  predicate Stops(route: RouteTag, page: string)
  {
    route.url.None? || route.url.value == page
  }

  /** The first `k` routes all have a `url`, and none of them is the page. */
  ghost predicate PassedOver(routes: seq<RouteTag>, page: string, k: nat)
  {
    k <= |routes| && forall j :: 0 <= j < k ==> routes[j].url.Some? && routes[j].url.value != page
  }

  /**
   * The route-specific policy: `None` when no route is the page, the policy
   * of the first route that is, or the exception for a route without `url`
   * reached before it.
   */
  function FindRoute(routes: seq<RouteTag>, page: string): (r: Result<Option<Policy<string>>, Error>)
  {
    if routes == [] then Success(None)
    else if routes[0].url.None? then Failure(XMLException(MissingUrlMessage))
    else if routes[0].url.value == page then Success(Some(routes[0].policy))
    else FindRoute(routes[1..], page)
  }

  /**
   * The search is decided by the first route it stops at: if the routes
   * before index `k` are passed over and `k` is where it stops (or the end),
   * the result is that route's policy, the missing-url exception, or none.
   */
  lemma {:induction false} FindRouteFirstStop(routes: seq<RouteTag>, page: string, k: nat)
    requires PassedOver(routes, page, k)
    requires k == |routes| || Stops(routes[k], page)
    ensures FindRoute(routes, page) ==
      if k == |routes| then Success(None)
      else if routes[k].url.None? then Failure(XMLException(MissingUrlMessage))
      else Success(Some(routes[k].policy))
  {
    if k > 0 {
      assert PassedOver(routes[1..], page, k - 1) by {
        forall j | 0 <= j < k - 1
          ensures routes[1..][j].url.Some? && routes[1..][j].url.value != page
        {
          assert routes[1..][j] == routes[j + 1];
        }
      }
      FindRouteFirstStop(routes[1..], page, k - 1);
    }
  }

  /** No route-specific policy is found exactly when every route has a `url` and none is the page. */
  lemma {:induction false} FindRouteNone(routes: seq<RouteTag>, page: string)
    ensures FindRoute(routes, page) == Success(None) <==> PassedOver(routes, page, |routes|)
  {
    if routes != [] {
      FindRouteNone(routes[1..], page);
      if PassedOver(routes, page, |routes|) {
        assert PassedOver(routes[1..], page, |routes| - 1) by {
          forall j | 0 <= j < |routes| - 1
            ensures routes[1..][j].url.Some? && routes[1..][j].url.value != page
          {
            assert routes[1..][j] == routes[j + 1];
          }
        }
      }
      if FindRoute(routes, page) == Success(None) {
        assert forall j :: 1 <= j < |routes| ==> routes[j] == routes[1..][j - 1];
      }
    }
  }

  /**
   * Later routes are never examined: once a prefix of the routes yields a
   * policy or the exception, appending routes (even ones without `url`)
   * changes nothing; otherwise the search continues into the appended ones.
   */
  lemma {:induction false} FindRouteAppend(a: seq<RouteTag>, b: seq<RouteTag>, page: string)
    ensures FindRoute(a + b, page) ==
      if FindRoute(a, page) == Success(None) then FindRoute(b, page) else FindRoute(a, page)
  {
    if a == [] {
      assert a + b == b;
    } else {
      assert (a + b)[0] == a[0];
      assert (a + b)[1..] == a[1..] + b;
      FindRouteAppend(a[1..], b, page);
    }
  }

  /**
   * What the `foreach` over the array cast of the `http_caching` tag walks,
   * as the code is written: PHP's array cast of an XML element lists the
   * `route` children only when there are two or more; a single `route`
   * child becomes that element itself, and iterating an element walks its
   * own children.
   */
  function CastRoutes(routes: seq<RouteTag>): (walked: seq<RouteTag>)
    ensures |routes| != 1 ==> walked == routes
    ensures |routes| == 1 ==> walked == routes[0].children
  {
    if |routes| == 1 then routes[0].children else routes
  }

  /** The route-specific policy the code as written finds: the search over what the cast yields. */
  function FindRouteAsWritten(routes: seq<RouteTag>, page: string): (r: Result<Option<Policy<string>>, Error>)
  {
    FindRoute(CastRoutes(routes), page)
  }

  /**
   * As written, a lone `route` whose `url` is the page (and which has no
   * child elements) is never examined: nothing is found, where the list
   * search finds its policy.
   */
  lemma LoneRouteMissed(page: string, p: Policy<string>)
    ensures FindRouteAsWritten([RouteTag(Some(page), p, [])], page) == Success(None)
    ensures FindRoute([RouteTag(Some(page), p, [])], page) == Success(Some(p))
  {
  }

  /**
   * As written, a lone `route` without `url` raises nothing, where the list
   * search raises the missing-url exception.
   */
  lemma LoneRouteWithoutUrlIgnored(page: string, p: Policy<string>)
    ensures FindRouteAsWritten([RouteTag(None, p, [])], page) == Success(None)
    ensures FindRoute([RouteTag(None, p, [])], page) == Failure(XMLException(MissingUrlMessage))
  {
  }

  /**
   * As written, appending a route can make an earlier one be found: the
   * lone matching route is missed, the same route followed by another is
   * found. The list search has no such effect (`FindRouteAppend`).
   */
  lemma AsWrittenAppendFinds(page: string, p: Policy<string>, next: RouteTag)
    ensures FindRouteAsWritten([RouteTag(Some(page), p, [])], page) == Success(None)
    ensures FindRouteAsWritten([RouteTag(Some(page), p, []), next], page) == Success(Some(p))
  {
  }

  /** With no routes, or two or more, the code as written is the list search. */
  lemma AsWrittenAgreesUnlessLone(routes: seq<RouteTag>, page: string)
    requires |routes| != 1
    ensures FindRouteAsWritten(routes, page) == FindRoute(routes, page)
  {
  }

  /** The global policy: the exception when the `http_caching` tag is missing. */
  function GlobalPolicy(tag: Option<CachingTag>): (r: Result<Policy<string>, Error>)
    ensures r.Failure? <==> tag.None?
    ensures r.Failure? ==> r.error.message == MissingTagMessage
    ensures r.Success? ==> r.value == tag.value.policy
  {
    match tag
    case None => Failure(XMLException(MissingTagMessage))
    case Some(t) => Success(t.policy)
  }

  /** The policy the locator resolves for `page`, or the exception it raises. */
  function ResolvePolicy(tag: Option<CachingTag>, page: string): (r: Result<Policy<string>, Error>)
  {
    match GlobalPolicy(tag)
    case Failure(e) => Failure(e)
    case Success(global) =>
      match FindRoute(tag.value.routes, page)
      case Failure(e) => Failure(e)
      case Success(None) => Success(global)
      case Success(Some(specific)) => Success(Merge(global, specific))
  }

  /** A missing `http_caching` tag raises the exception whatever the page, before any route is read. */
  lemma ResolveMissingTag(page: string)
    ensures ResolvePolicy(None, page) == Failure(XMLException(MissingTagMessage))
  {
  }

  /** When no route is the page (or there are no routes) the resolved policy is exactly the global one. */
  lemma ResolveWithoutMatch(tag: CachingTag, page: string)
    requires forall j :: 0 <= j < |tag.routes| ==> tag.routes[j].url.Some? && tag.routes[j].url.value != page
    ensures ResolvePolicy(Some(tag), page) == Success(tag.policy)
  {
    FindRouteNone(tag.routes, page);
  }

  /**
   * When route `k` is the first one the search stops at and it has the page
   * as its `url`, the resolved policy is the global one merged with that
   * route's policy; if it has no `url`, the exception is raised.
   */
  lemma ResolveAtFirstStop(tag: CachingTag, page: string, k: nat)
    requires PassedOver(tag.routes, page, k) && k < |tag.routes| && Stops(tag.routes[k], page)
    ensures tag.routes[k].url.Some? ==> ResolvePolicy(Some(tag), page) == Success(Merge(tag.policy, tag.routes[k].policy))
    ensures tag.routes[k].url.None? ==> ResolvePolicy(Some(tag), page) == Failure(XMLException(MissingUrlMessage))
  {
    FindRouteFirstStop(tag.routes, page, k);
  }

  /** The locator: its policy is null until `SetPolicy` has assigned it. */
  class CachingPolicyLocator {
    var policy: Option<Policy<string>>

    constructor ()
      ensures policy.None?
    {
      policy := None;
    }

    /**
     * Assigns the global policy, then writes each field the route-specific
     * policy sets over it, one setter at a time. A route error is raised
     * after the global policy has been assigned; a missing tag before.
     */
    method SetPolicy(tag: Option<CachingTag>, page: string) returns (outcome: Outcome<Error>)
      modifies this
      ensures outcome.Pass? <==> ResolvePolicy(tag, page).Success?
      ensures outcome.Pass? ==> policy == Some(ResolvePolicy(tag, page).value)
      ensures outcome.Fail? ==> outcome.error == ResolvePolicy(tag, page).error
      ensures tag.None? ==> policy == old(policy)
      ensures tag.Some? && outcome.Fail? ==> policy == Some(tag.value.policy)
    {
      var global := GlobalPolicy(tag);
      if global.Failure? {
        return Fail(global.error);
      }
      policy := Some(global.value);
      var specific := GetSpecificPolicy(tag.value, page);
      if specific.Failure? {
        return Fail(specific.error);
      }
      if specific.value.Some? {
        var over := specific.value.value;
        if over.disabled.Some? {
          policy := Some(policy.value.(disabled := over.disabled));
        }
        if over.expiration.Some? {
          policy := Some(policy.value.(expiration := over.expiration));
        }
        if over.driver.Some? {
          policy := Some(policy.value.(driver := over.driver));
        }
      }
      outcome := Pass;
    }

    /** Walks the routes in document order, stopping at the first without `url` or with the page as `url`. */
    static method GetSpecificPolicy(caching: CachingTag, page: string)
      returns (r: Result<Option<Policy<string>>, Error>)
      ensures r == FindRoute(caching.routes, page)
    {
      var routes := caching.routes;
      if routes == [] {
        return Success(None);
      }
      var i := 0;
      while i < |routes|
        invariant 0 <= i <= |routes|
        invariant FindRoute(routes, page) == FindRoute(routes[i..], page)
      {
        assert routes[i..][1..] == routes[i + 1..];
        var route := routes[i].url;
        if route.None? {
          return Failure(XMLException(MissingUrlMessage));
        }
        if route.value == page {
          return Success(Some(routes[i].policy));
        }
        i := i + 1;
      }
      return Success(None);
    }

    /** The detected policy; null when `SetPolicy` has not assigned one. */
    function GetPolicy(): (r: Option<Policy<string>>)
      reads this
      ensures r == policy
    {
      policy
    }
  }
}
