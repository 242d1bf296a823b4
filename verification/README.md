# HTTP caching binder of lucinda-framework-stdout, modelled in Dafny

This project models the caching component of the Lucinda STDOUT framework
bindings: how the caching policy of the requested page is located in the
`http_caching` configuration tag, and how the binder then reacts on the HTTP
response to the outcome of conditional-request validation and appends the
caching headers.

- `wrappers.dfy` (module `Wrappers`): `Option` (PHP null), `Result` and
  `Outcome` (a return value or a thrown exception).
- `policies.dfy` (module `Policies`): the caching policy, three nullable
  settings (`disabled`, `expiration`, `driver`), and the field-wise merge in
  which a non-null override wins, with its laws.
- `locator.dfy` (module `Locator`): `CachingPolicyLocator`. The global policy
  comes from the `http_caching` tag (missing tag: `XMLException`); the
  `route` subtags are searched in document order for the first whose `url`
  equals the page (a route without `url` reached first: `XMLException`); the
  found route's policy is written over the global one, one setter per
  non-null field. `FindRoute` and `ResolvePolicy` are the specification
  functions; `SetPolicy` and its loop `GetSpecificPolicy` are proved to
  implement them; `GetPolicy` returns the detected policy. The code as
  written walks the array cast of the tag, which lists the routes only when
  there are two or more (see "## Findings"); `CastRoutes` and
  `FindRouteAsWritten` model that, and the rest of the model uses the list
  search over every route.
- `responses.dfy` (module `Responses`): the part of the framework response
  that validation touches — status, buffered output, headers.
- `binder.dfy` (module `Binder`): `CachingBinder`. `GetPolicy` replaces the
  driver class name by the driver built from it; `Validate` is guarded by
  "not disabled and a driver present", sets 304 and clears the buffer, or
  sets 412, according to the validator's status code; `AppendHeaders`
  selects the directives by PHP truthiness (public always; ETag, Last-Modified
  and max-age only for a truthy etag, time and expiration) and writes every
  header line into the response. `Validated` is the specification of the
  whole reaction; `Bind` is the binder's constructor.

PHP truthiness is explicit: `disabled` is on only when it is `true` (null
counts as enabled); a string is falsy when null, empty or `"0"`; an integer
when null or 0.

The conditional-request validator, the request's "validatable" test, the
header serialisation and the driver construction are collaborators whose
code is not part of this model; they enter as parameters (`validatable`,
`validator: Cacheable -> int`, `serialize`, `build: string -> Cacheable`),
and only the binder's reaction to them is proved.

Facts about the code that the model keeps:
- the locator applies no default to `disabled` (`MergeAppliesNoDefault`); the
  binder's guard treats null as enabled (`InstanceGuard`);
- nothing checks that a driver is configured: PHP fails only when it
  instantiates a null class name, so the model requires a configured driver
  (`DriverConfigured`);
- `max-age` is emitted for any truthy (non-zero) expiration period, negative
  ones included;
- routes form an ordered list: the first match wins, and a route without
  `url` met before it raises an exception.

## Model

| member | source | states |
|---|---|---|
| `Policies.MergePrecedence` | src/caching/CachingPolicyLocator.php:41-51 | each field of the resolved policy is the override's value when that is non-null, and the global value otherwise |
| `Policies.MergeIndependent` | src/caching/CachingPolicyLocator.php:42-50 | fields merge independently: overrides agreeing on one field give results agreeing on it, whatever the other two fields hold |
| `Policies.ExplicitFalsyOverrides` | src/caching/CachingPolicyLocator.php:42-47 | an explicit `false` or `0` override still replaces the global value (the test is non-null, not truthiness) and leaves the other field alone |
| `Policies.MergeAppliesNoDefault` | src/caching/CachingPolicyLocator.php:39-44 | when neither the global policy nor the override sets `disabled`, the result's `disabled` stays null |
| `Policies.MergeLaws` | src/caching/CachingPolicyLocator.php:41-51 | an override that sets nothing leaves the global policy as it is; applying the same override twice changes nothing more; merges associate |
| `Locator.FindRouteFirstStop` | src/caching/CachingPolicyLocator.php:85-96 | the list search is decided by the first route that lacks a `url` or has the page as `url`: its policy, the missing-url XMLException, or none when there is no such route |
| `Locator.FindRouteNone` | src/caching/CachingPolicyLocator.php:85-96 | in the list search, no route-specific policy is found if and only if every route has a `url` and none equals the page (including no routes) |
| `Locator.FindRouteAppend` | src/caching/CachingPolicyLocator.php:86-94 | in the list search, later routes are never examined: once a prefix yields a policy or the exception, appended routes (even without `url`) change nothing |
| `Locator.GlobalPolicy` | src/caching/CachingPolicyLocator.php:63-71 | a missing `http_caching` tag raises XMLException with the source's message; otherwise the global policy is the tag's |
| `Locator.ResolveMissingTag` | src/caching/CachingPolicyLocator.php:65-67 | a missing tag raises the exception whatever the page and the routes, before any merge |
| `Locator.ResolveWithoutMatch` | src/caching/CachingPolicyLocator.php:39-51 | when no route matches, or there are no routes, the resolved policy is exactly the global policy |
| `Locator.ResolveAtFirstStop` | src/caching/CachingPolicyLocator.php:39-51 | when the first stopping route matches, the result is the global policy merged with its policy; when it lacks a `url`, XMLException |
| `Locator.CachingPolicyLocator.constructor` | src/caching/CachingPolicyLocator.php:12 | the locator's policy is null until it is set |
| `Locator.CachingPolicyLocator.SetPolicy` | src/caching/CachingPolicyLocator.php:37-52 | field-by-field setters leave the resolved policy, or raise its exception; a missing tag leaves the policy untouched, a route error leaves it the global policy |
| `Locator.CachingPolicyLocator.GetPolicy` | src/caching/CachingPolicyLocator.php:104-107 | returns the policy the locator detected, null when none was set |
| `Locator.CastRoutes` | src/caching/CachingPolicyLocator.php:84-86 | what the `foreach` walks as written: the routes themselves when there are none or two or more, the lone route's own child elements when there is exactly one |
| `Locator.LoneRouteMissed` | src/caching/CachingPolicyLocator.php:84-93 | as written, a lone route whose `url` is the page is never examined and nothing is found, where the list search finds its policy |
| `Locator.LoneRouteWithoutUrlIgnored` | src/caching/CachingPolicyLocator.php:84-90 | as written, a lone route without `url` raises nothing, where the list search raises the missing-url XMLException |
| `Locator.AsWrittenAppendFinds` | src/caching/CachingPolicyLocator.php:84-94 | as written, a lone matching route is missed but the same route followed by any other is found |
| `Locator.AsWrittenAgreesUnlessLone` | src/caching/CachingPolicyLocator.php:84-96 | with no routes or two or more, the code as written and the list search give the same result |
| `Locator.CachingPolicyLocator.GetSpecificPolicy` | src/caching/CachingPolicyLocator.php:81-97 | the document-order loop with early return and throw computes the first-match list search over every route |
| `Binder.HeaderSet` | src/caching/CachingBinder.php:84-94 | directives are always public; ETag, Last-Modified and max-age are present exactly when the etag, time and expiration are truthy, with those values; expiration 0 or null gives no max-age |
| `Binder.Validated` | src/caching/CachingBinder.php:56-72 | disabled or driverless: response untouched; otherwise headers appended, and status/body unchanged when not validatable, 304 with cleared body, 412 with body kept, or unchanged for any other code |
| `Binder.InstanceGuard` | src/caching/CachingBinder.php:58 | once the driver is built the guard depends only on `disabled`, and a null `disabled` leaves caching on |
| `Binder.GetPolicy` | src/caching/CachingBinder.php:37-48 | the locator's exception propagates; otherwise only the driver changes, from the class name to the instance built from it |
| `Binder.Validate` | src/caching/CachingBinder.php:56-72 | the response after the guarded validation is the one `Validated` describes |
| `Binder.AppendHeaders` | src/caching/CachingBinder.php:80-99 | every produced header line is appended to the response in order; status and buffer are unchanged |
| `Binder.Bind` | src/caching/CachingBinder.php:21-25 | a configuration exception propagates before the response is touched; otherwise the response is validated under the resolved policy with its driver built |

## Findings

| source | as written | input that shows it | evidently intended | confidence | as-written member | corrected member |
|---|---|---|---|---|---|---|
| src/caching/CachingPolicyLocator.php:84-86 | `(array)` cast of the `http_caching` element, then `foreach` over its `route` entry: a single `route` child is one element, and the loop walks that element's own children | one `route` subtag with `url` equal to the page and no child elements: no route-specific policy, the global policy is used; one `route` without `url`: no exception | every `route` subtag is searched in document order, whatever their number | medium, not executed | `Locator.LoneRouteMissed` | `Locator.FindRouteFirstStop` |

## Left out

- Conditional-request evaluation (If-Match, If-None-Match, If-Modified-Since, If-Unmodified-Since; section 6 of RFC 7232) belongs to the vendor `CacheRequest` and `CacheValidator`, whose code is not part of this model: it is the parameter `validator`, with `validatable` for the request's own test, and no precedence rule of RFC 7232 is asserted.
- Header line formats (Cache-Control `public` and `max-age`, sections 5.2.2.5 and 5.2.2.8 of RFC 7234; ETag and Last-Modified, sections 2.3 and 2.2 of RFC 7232) belong to the vendor `CacheResponse`: its `getHeaders` is the parameter `serialize`.
- `CachingPolicyFinder.php` is not part of this model: the policies it reads from the tag and from each route arrive already parsed, with nullable fields.
- The reflective `new $driverClass(...)` is the total function `build`. The precondition `DriverConfigured` excludes only a null class name; an empty class name, a missing class or one that is not a driver (a PHP crash or ServletException) is assumed away because `build` yields a driver for every string.
- An `http_caching` element that is present but empty (no attributes, no children) is also falsy in PHP; the model treats only an absent tag as missing.
- The route test uses PHP loose `==`; the model uses string equality, so numeric strings such as `"10"` and `"1e1"` do not compare equal here.
- The locator's policy object and the binder's are one PHP object mutated in place; because the driver changes type, `Binder.GetPolicy` returns a new value instead, so that aliasing is not modelled.
- The PHP locator constructor throws from `setPolicy`; the model allocates the locator and calls `SetPolicy`, whose `Outcome` stands for the exception.
- The framework's `Response::headers` may replace a header of the same name; the model appends every line in order.
- The driver's `getEtag` and `getTime` are called twice each in the source; the model reads each once, so a driver whose answers change between calls is not modelled.
- Authentication, authorization, persistence drivers, logging and error reporting (the other files of the repository) only configure and delegate to libraries whose code is not part of this model.
- FindRouteFirstStop: describes the list search over every route; with exactly one `route` subtag the code as written walks that route's child elements instead (`LoneRouteMissed`, "## Findings").
- FindRouteNone: describes the list search; with exactly one `route` subtag the code as written finds nothing even when its `url` is the page (`LoneRouteMissed`).
- FindRouteAppend: holds of the list search; the code as written does not have it for a lone route (`AsWrittenAppendFinds`).
- ResolveAtFirstStop: describes resolution with the list search; with exactly one `route` subtag the code as written keeps the global policy and raises nothing (`LoneRouteWithoutUrlIgnored`).
- GetSpecificPolicy: loops over every route subtag, the list search; the code as written iterates the array cast, which differs for exactly one subtag (`CastRoutes`).
