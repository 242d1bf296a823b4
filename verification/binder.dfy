/**
 * Binding cache validation to a request: build the driver named by the
 * resolved policy, let the conditional-request validator decide a status,
 * react to it on the response, and append the caching headers.
 */
module Binder {
  import opened Wrappers
  import opened Policies
  import opened Responses
  import opened Locator

  /**
   * A cacheable driver as the binder sees it: the entity tag and the
   * modification time it reports for the requested resource (either may be
   * null).
   */
  datatype Cacheable = Cacheable(etag: Option<string>, time: Option<int>)

  /**
   * The caching directives collected before they are turned into header
   * lines: `Cache-Control: public`, `ETag`, `Last-Modified` and `max-age`.
   */
  datatype CacheHeaders = CacheHeaders(isPublic: bool, etag: Option<string>, lastModified: Option<int>, maxAge: Option<int>)

  // PHP truthiness of the values the binder tests.

  /** A nullable flag is on only when it is `true`; null counts as off. */
  predicate IsOn(flag: Option<bool>)
  {
    flag == Some(true)
  }

  /** A nullable string is truthy unless it is null, empty or "0". */
  predicate StringTruthy(s: Option<string>)
  {
    s.Some? && s.value != "" && s.value != "0"
  }

  /** A nullable integer is truthy unless it is null or 0. */
  predicate IntTruthy(n: Option<int>)
  {
    n.Some? && n.value != 0
  }

  /** The binder's guard: caching is not disabled and a driver is present. */
  predicate Enabled(policy: Policy<Cacheable>)
  {
    !IsOn(policy.disabled) && policy.driver.Some?
  }

  /**
   * The directives emitted for a driver under an expiration period: always
   * public, and each other entry present exactly when its source value is
   * truthy, carrying that value.
   */
  function HeaderSet(expiration: Option<int>, driver: Cacheable): (h: CacheHeaders)
    ensures h.isPublic
    ensures h.etag.Some? <==> StringTruthy(driver.etag)
    ensures h.etag.Some? ==> h.etag == driver.etag
    ensures h.lastModified.Some? <==> IntTruthy(driver.time)
    ensures h.lastModified.Some? ==> h.lastModified == driver.time
    ensures h.maxAge.Some? <==> IntTruthy(expiration)
    ensures h.maxAge.Some? ==> h.maxAge == expiration
    ensures expiration.None? || expiration == Some(0) ==> h.maxAge.None?
  {
    CacheHeaders(true,
                 if StringTruthy(driver.etag) then driver.etag else None,
                 if IntTruthy(driver.time) then driver.time else None,
                 if IntTruthy(expiration) then expiration else None)
  }

  /**
   * The response after validation. `validatable` is whether the request
   * can be validated, `validator` the status code the conditional-request
   * validator returns for a driver, and `serialize` the header lines a set
   * of directives becomes.
   */
  function Validated(policy: Policy<Cacheable>, s: ResponseState, validatable: bool,
                     validator: Cacheable -> int, serialize: CacheHeaders -> seq<Header>): (r: ResponseState)
    // disabled, or no driver: nothing on the response changes
    ensures !Enabled(policy) ==> r == s
    // otherwise the caching headers are appended, whether or not the request was validatable
    ensures Enabled(policy) ==>
      r.headers == s.headers + serialize(HeaderSet(policy.expiration, policy.driver.value))
    ensures Enabled(policy) && !validatable ==> r.status == s.status && r.body == s.body
    ensures Enabled(policy) && validatable && validator(policy.driver.value) == 304 ==>
      r.status == 304 && r.body == []
    ensures Enabled(policy) && validatable && validator(policy.driver.value) == 412 ==>
      r.status == 412 && r.body == s.body
    ensures Enabled(policy) && validatable && validator(policy.driver.value) !in {304, 412} ==>
      r.status == s.status && r.body == s.body
    // what validation can do at all: keep or override the status with 304 or 412,
    // keep or clear the body, and only add headers
    ensures r.status == s.status || r.status == 304 || r.status == 412
    ensures r.body == s.body || (r.body == [] && r.status == 304)
    ensures s.headers <= r.headers
  {
    if !Enabled(policy) then s
    else
      var driver := policy.driver.value;
      var reacted :=
        if !validatable then s
        else if validator(driver) == 304 then s.(status := 304, body := [])
        else if validator(driver) == 412 then s.(status := 412)
        else s;
      reacted.(headers := reacted.headers + serialize(HeaderSet(policy.expiration, driver)))
  }

  /** The configuration names a driver whenever it resolves: otherwise PHP fails constructing it. */
  predicate DriverConfigured(tag: Option<CachingTag>, page: string)
  {
    ResolvePolicy(tag, page).Success? ==> ResolvePolicy(tag, page).value.driver.Some?
  }

  /** The resolved policy with its driver class name replaced by the instance built from it. */
  function WithInstance(policy: Policy<string>, build: string -> Cacheable): (r: Policy<Cacheable>)
    requires policy.driver.Some?
  {
    Policy(policy.disabled, policy.expiration, Some(build(policy.driver.value)))
  }

  /**
   * Once the driver is built the guard only depends on `disabled`, and a
   * `disabled` that neither the global policy nor the route sets (null)
   * leaves caching enabled.
   */
  lemma InstanceGuard(policy: Policy<string>, build: string -> Cacheable)
    requires policy.driver.Some?
    ensures Enabled(WithInstance(policy, build)) <==> policy.disabled != Some(true)
    ensures policy.disabled.None? ==> Enabled(WithInstance(policy, build))
  {
  }

  /**
   * Resolves the policy through the locator and replaces its driver class
   * name by the driver instance; the other two settings are unchanged.
   */
  method GetPolicy(tag: Option<CachingTag>, page: string, build: string -> Cacheable)
    returns (r: Result<Policy<Cacheable>, Error>)
    requires DriverConfigured(tag, page)
    ensures r.Failure? <==> ResolvePolicy(tag, page).Failure?
    ensures r.Failure? ==> r.error == ResolvePolicy(tag, page).error
    ensures r.Success? ==>
      var resolved := ResolvePolicy(tag, page).value;
      r.value.disabled == resolved.disabled && r.value.expiration == resolved.expiration &&
      r.value.driver == Some(build(resolved.driver.value))
  {
    var cpb := new CachingPolicyLocator();
    var outcome := cpb.SetPolicy(tag, page);
    if outcome.Fail? {
      return Failure(outcome.error);
    }
    var policy := cpb.GetPolicy().value;
    var driverClass := policy.driver.value;
    r := Success(Policy(policy.disabled, policy.expiration, Some(build(driverClass))));
  }

  /** Validates the request when caching is on, reacts to the status code, then appends the headers. */
  method Validate(policy: Policy<Cacheable>, response: Response, validatable: bool,
                  validator: Cacheable -> int, serialize: CacheHeaders -> seq<Header>)
    modifies response
    ensures response.State() == Validated(policy, old(response.State()), validatable, validator, serialize)
  {
    if !IsOn(policy.disabled) && policy.driver.Some? {
      if validatable {
        var httpStatusCode := validator(policy.driver.value);
        if httpStatusCode == 304 {
          response.SetStatus(304);
          response.ClearOutput();
        } else if httpStatusCode == 412 {
          response.SetStatus(412);
        }
      }
      AppendHeaders(policy, response, serialize);
    }
  }

  /**
   * Collects the directives with one conditional setter per entry, then
   * writes every header line into the response; status and body stay.
   */
  method AppendHeaders(policy: Policy<Cacheable>, response: Response, serialize: CacheHeaders -> seq<Header>)
    requires policy.driver.Some?
    modifies response
    ensures response.State() ==
      old(response.State()).(headers := old(response.headers) + serialize(HeaderSet(policy.expiration, policy.driver.value)))
  {
    var cacheable := policy.driver.value;
    var cacheResponse := CacheHeaders(false, None, None, None);
    cacheResponse := cacheResponse.(isPublic := true);
    if StringTruthy(cacheable.etag) {
      cacheResponse := cacheResponse.(etag := cacheable.etag);
    }
    if IntTruthy(cacheable.time) {
      cacheResponse := cacheResponse.(lastModified := cacheable.time);
    }
    if IntTruthy(policy.expiration) {
      cacheResponse := cacheResponse.(maxAge := policy.expiration);
    }
    var headers := serialize(cacheResponse);
    var i := 0;
    while i < |headers|
      invariant 0 <= i <= |headers|
      invariant response.State() == old(response.State()).(headers := old(response.headers) + headers[..i])
    {
      response.AddHeader(headers[i].0, headers[i].1);
      assert headers[..i + 1] == headers[..i] + [headers[i]];
      i := i + 1;
    }
    assert headers[..i] == headers;
  }

  /**
   * The binder as a whole: a configuration error propagates before the
   * response is touched; otherwise the response is validated under the
   * resolved policy with its driver built.
   */
  method Bind(tag: Option<CachingTag>, page: string, build: string -> Cacheable, response: Response,
              validatable: bool, validator: Cacheable -> int, serialize: CacheHeaders -> seq<Header>)
    returns (outcome: Outcome<Error>)
    requires DriverConfigured(tag, page)
    modifies response
    ensures outcome.Fail? <==> ResolvePolicy(tag, page).Failure?
    ensures outcome.Fail? ==>
      outcome.error == ResolvePolicy(tag, page).error && response.State() == old(response.State())
    ensures outcome.Pass? ==>
      response.State() ==
        Validated(WithInstance(ResolvePolicy(tag, page).value, build), old(response.State()),
                  validatable, validator, serialize)
  {
    var policy := GetPolicy(tag, page, build);
    if policy.Failure? {
      return Fail(policy.error);
    }
    Validate(policy.value, response, validatable, validator, serialize);
    outcome := Pass;
  }
}
