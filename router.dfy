/**
 * The single-page router of js/wpvs-router/wpvs-router.js. The `<script>`
 * children of the element are the route templates: one with a `data-route`
 * attribute is shown for exactly that URL, one with only `data-route-fallback`
 * is shown for every URL without a route. The URL is the location hash
 * without its leading `#`, "/" when it is empty.
 */
module Router {
  import opened JsString

  /** A `<script>` child: its `data-route` and `data-route-fallback` attributes and its content. */
  datatype Script = Script(route: Option<string>, routeFallback: Option<string>, html: string)

  /** An entry of `_routes`: the URL and the content its callback shows. */
  datatype Route = Route(url: string, html: string)

  /** JavaScript truthiness of an attribute read through `dataset`: present and not empty. */
  predicate Truthy(attr: Option<string>)
  {
    attr.Some? && attr.value != ""
  }

  /** The script becomes a route. */
  predicate IsRoute(script: Script)
  {
    Truthy(script.route)
  }

  /** The script becomes the fallback: `data-route` wins when both are given. */
  predicate IsFallback(script: Script)
  {
    !Truthy(script.route) && Truthy(script.routeFallback)
  }

  /** The routes that registering the scripts pushes, in document order. */
  function Registered(scripts: seq<Script>): (r: seq<Route>)
    ensures |r| <= |scripts|
  {
    if |scripts| == 0 then []
    else
      var rest := Registered(scripts[..|scripts| - 1]);
      var last := scripts[|scripts| - 1];
      if IsRoute(last) then rest + [Route(last.route.value, last.html)] else rest
  }

  /** Every route comes from a script with a `data-route`, and every such script gives one. */
  lemma {:induction false} RegisteredSpec(scripts: seq<Script>)
    ensures forall route :: route in Registered(scripts) ==>
      exists i :: 0 <= i < |scripts| && IsRoute(scripts[i]) && route == Route(scripts[i].route.value, scripts[i].html)
    ensures forall i :: 0 <= i < |scripts| && IsRoute(scripts[i]) ==> Route(scripts[i].route.value, scripts[i].html) in Registered(scripts)
    decreases |scripts|
  {
    if |scripts| > 0 {
      var init := scripts[..|scripts| - 1];
      RegisteredSpec(init);
      assert forall i :: 0 <= i < |init| ==> init[i] == scripts[i];
    }
  }

  /** Registration keeps document order: the routes of a later script come after those of an earlier one. */
  lemma {:induction false} RegisteredAppend(a: seq<Script>, b: seq<Script>)
    ensures Registered(a + b) == Registered(a) + Registered(b)
    decreases |b|
  {
    if |b| == 0 {
      assert a + b == a;
    } else {
      var b' := b[..|b| - 1];
      assert (a + b)[..|a + b| - 1] == a + b';
      RegisteredAppend(a, b');
    }
  }

  /**
   * `_fallback` after registering the scripts, starting from `previous`: the
   * content of the last fallback script, or `previous` when there is none.
   */
  function LastFallback(scripts: seq<Script>, previous: Option<string>): Option<string>
  {
    if |scripts| == 0 then previous
    else
      var last := scripts[|scripts| - 1];
      if IsFallback(last) then Some(last.html) else LastFallback(scripts[..|scripts| - 1], previous)
  }

  /** The last fallback script wins; without one, the fallback stays as it was. */
  lemma {:induction false} LastFallbackSpec(scripts: seq<Script>, previous: Option<string>)
    ensures (forall i :: 0 <= i < |scripts| ==> !IsFallback(scripts[i])) ==> LastFallback(scripts, previous) == previous
    ensures forall i :: 0 <= i < |scripts| && IsFallback(scripts[i]) && (forall j :: i < j < |scripts| ==> !IsFallback(scripts[j])) ==>
      LastFallback(scripts, previous) == Some(scripts[i].html)
    decreases |scripts|
  {
    if |scripts| > 0 {
      var init := scripts[..|scripts| - 1];
      var n := |scripts| - 1;
      LastFallbackSpec(init, previous);
      if forall i :: 0 <= i < |scripts| ==> !IsFallback(scripts[i]) {
        assert !IsFallback(scripts[n]);
        assert forall i :: 0 <= i < |init| ==> !IsFallback(init[i]);
      }
      forall i | 0 <= i < |scripts| && IsFallback(scripts[i]) && (forall j :: i < j < |scripts| ==> !IsFallback(scripts[j]))
        ensures LastFallback(scripts, previous) == Some(scripts[i].html)
      {
        if i < n {
          assert !IsFallback(scripts[n]);
          assert init[i] == scripts[i];
          assert forall j :: i < j < |init| ==> !IsFallback(init[j]);
        }
      }
    }
  }

  /** `location.hash.slice(1)`, or "/" when that is empty. */
  function RequestedUrl(hash: string): (r: string)
    ensures r != ""
    ensures |hash| > 1 ==> r == hash[1..]
    ensures |hash| <= 1 ==> r == "/"
  {
    var url := SliceFrom(hash, 1);
    if |url| == 0 then "/" else url
  }

  /** `_routes.find(p => p.url === url)`, as an index; the first route with that URL. */
  function FindRoute(routes: seq<Route>, url: string): (r: Option<nat>)
    ensures r.Some? ==> r.value < |routes| && routes[r.value].url == url
    ensures r.Some? ==> forall j :: 0 <= j < r.value ==> routes[j].url != url
    ensures r.None? ==> forall j :: 0 <= j < |routes| ==> routes[j].url != url
  {
    if |routes| == 0 then None
    else if routes[0].url == url then Some(0)
    else match FindRoute(routes[1..], url)
      case None => None
      case Some(i) => Some(i + 1)
  }

  /** Routes pushed later never shadow an earlier route with the same URL. */
  lemma {:induction false} FindRouteAppend(a: seq<Route>, b: seq<Route>, url: string)
    ensures FindRoute(a, url).Some? ==> FindRoute(a + b, url) == FindRoute(a, url)
    ensures FindRoute(a, url).None? && FindRoute(b, url).Some? ==> FindRoute(a + b, url) == Some(|a| + FindRoute(b, url).value)
    ensures FindRoute(a, url).None? && FindRoute(b, url).None? ==> FindRoute(a + b, url).None?
    decreases |a|
  {
    if |a| > 0 {
      assert (a + b)[1..] == a[1..] + b;
      FindRouteAppend(a[1..], b, url);
    } else {
      assert a + b == b;
    }
  }

  /**
   * The content `_handleRouting` shows for `url`: that of the first route for
   * it, else that of the fallback, else nothing (and an error is logged).
   */
  function Shown(routes: seq<Route>, fallback: Option<string>, url: string): Option<string>
  {
    match FindRoute(routes, url)
    case Some(i) => Some(routes[i].html)
    case None => fallback
  }

  /**
   * A URL with a route shows the content of its first route; a URL without one
   * shows the fallback.
   */
  lemma ShownSpec(routes: seq<Route>, fallback: Option<string>, url: string)
    ensures (exists i :: 0 <= i < |routes| && routes[i].url == url) ==>
      var r := Shown(routes, fallback, url);
      r.Some? && (exists i :: 0 <= i < |routes| && routes[i].url == url && r.value == routes[i].html &&
                             forall j :: 0 <= j < i ==> routes[j].url != url)
    ensures (forall i :: 0 <= i < |routes| ==> routes[i].url != url) ==> Shown(routes, fallback, url) == fallback
  {
  }

  /** The message `console.error` receives when neither a route nor a fallback exists. */
  function NoRouteMessage(url: string): string
  {
    "No route found for URL '" + url + "'"
  }

  /** `n` copies of `s`, one after the other. */
  function Repeat<T>(s: seq<T>, n: nat): (r: seq<T>)
    ensures |r| == n * |s|
  {
    if n == 0 then [] else Repeat(s, n - 1) + s
  }

  /**
   * The `<wpvs-router>` element: its routes and fallback, the content of its
   * shadow root, the URLs of the "route-changed" events it raised, the errors
   * it logged, and how many "hashchange" listeners it has added to the window.
   */
  class RouterElement {
    var routes: seq<Route>
    var fallback: Option<string>
    var content: string
    var events: seq<string>
    var errors: seq<string>
    var listeners: nat

    constructor()
      ensures routes == [] && fallback == None && content == "" && events == [] && errors == [] && listeners == 0
    {
      routes := [];
      fallback := None;
      content := "";
      events := [];
      errors := [];
      listeners := 0;
    }

    /**
     * `_handleRouting` for the location hash `hash`: shows the content of the
     * first route for the URL, or of the fallback, and raises "route-changed"
     * with the URL; with neither, logs an error and leaves the content as it is.
     */
    method HandleRouting(hash: string)
      modifies this`content, this`events, this`errors
      ensures var url := RequestedUrl(hash);
        && (Shown(routes, fallback, url).Some? ==>
          content == Shown(routes, fallback, url).value && events == old(events) + [url] && errors == old(errors))
        && (Shown(routes, fallback, url).None? ==>
          content == old(content) && events == old(events) && errors == old(errors) + [NoRouteMessage(url)])
    {
      var url := SliceFrom(hash, 1);
      if |url| == 0 {
        url := "/";
      }
      var route := FindRoute(routes, url);
      if route.Some? {
        content := routes[route.value].html;
        events := events + [url];
      } else if fallback.Some? {
        content := fallback.value;
        events := events + [url];
      } else {
        errors := errors + [NoRouteMessage(url)];
      }
    }

    /**
     * `_render`: clears the content, registers the scripts after the routes
     * already known, adds one more "hashchange" listener, and routes.
     */
    method Render(scripts: seq<Script>, hash: string)
      modifies this
      ensures routes == old(routes) + Registered(scripts)
      ensures fallback == LastFallback(scripts, old(fallback))
      ensures listeners == old(listeners) + 1
      ensures var url := RequestedUrl(hash);
        && (Shown(routes, fallback, url).Some? ==>
          content == Shown(routes, fallback, url).value && events == old(events) + [url] && errors == old(errors))
        && (Shown(routes, fallback, url).None? ==>
          content == "" && events == old(events) && errors == old(errors) + [NoRouteMessage(url)])
    {
      content := "";
      for i := 0 to |scripts|
        invariant routes == old(routes) + Registered(scripts[..i])
        invariant fallback == LastFallback(scripts[..i], old(fallback))
        invariant content == "" && events == old(events) && errors == old(errors) && listeners == old(listeners)
      {
        var script := scripts[i];
        assert scripts[..i + 1][..i] == scripts[..i];
        if script.route.Some? && script.route.value != "" {
          routes := routes + [Route(script.route.value, script.html)];
          assert routes == old(routes) + (Registered(scripts[..i]) + [Route(script.route.value, script.html)]);
        } else if script.routeFallback.Some? && script.routeFallback.value != "" {
          fallback := Some(script.html);
        }
      }
      assert scripts[..|scripts|] == scripts;
      listeners := listeners + 1;
      HandleRouting(hash);
    }

    /**
     * A "hashchange" event: every listener added by a render runs
     * `_handleRouting` once, so the routing and its event or error repeat.
     */
    method OnHashChange(hash: string)
      modifies this`content, this`events, this`errors
      ensures var url := RequestedUrl(hash);
        && (Shown(routes, fallback, url).Some? ==>
          events == old(events) + Repeat([url], listeners) && errors == old(errors) &&
          (listeners > 0 ==> content == Shown(routes, fallback, url).value) && (listeners == 0 ==> content == old(content)))
        && (Shown(routes, fallback, url).None? ==>
          content == old(content) && events == old(events) && errors == old(errors) + Repeat([NoRouteMessage(url)], listeners))
    {
      ghost var url := RequestedUrl(hash);
      ghost var shown := Shown(routes, fallback, url);
      for k := 0 to listeners
        invariant shown == Shown(routes, fallback, url)
        invariant shown.Some? ==>
          events == old(events) + Repeat([url], k) && errors == old(errors) &&
          (k > 0 ==> content == shown.value) && (k == 0 ==> content == old(content))
        invariant shown.None? ==>
          content == old(content) && events == old(events) && errors == old(errors) + Repeat([NoRouteMessage(url)], k)
      {
        HandleRouting(hash);
      }
    }
  }

  /**
   * Rendering the same scripts again pushes every route a second time; since the
   * first route for a URL still wins, the content shown for any URL stays the same.
   */
  lemma RerenderShowsSame(routes: seq<Route>, fallback: Option<string>, scripts: seq<Script>, url: string)
    requires routes == Registered(scripts)
    ensures Shown(routes + Registered(scripts), fallback, url) == Shown(routes, fallback, url)
  {
    FindRouteAppend(routes, routes, url);
  }
}
