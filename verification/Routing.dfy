/** How the edge worker serves a request, and where its redirect to a custom domain leads. */
module Routing {
  import opened Wrappers
  import opened EdgeWorker
  import Domains
  import L = Links

  /** A parsed URL. `rest` is the query and fragment with their delimiters. */
  datatype Url = Url(host: string, path: string, rest: string)

  datatype Directory = Directory(domains: Domains.Maps, links: L.Links)

  /** Whether the API answers: a failed lookup of a configuration counts as one without a domain, and a failed
      lookup of a hostname as one that is not mapped. */
  datatype Api = Api(config: bool, domains: bool)

  /** An environment's app and the path it is mounted at. */
  datatype App = App(id: Id, prefix: string)

  datatype Content = File(id: string) | Manifest | Page

  datatype Outcome =
    | Analytics
    | NotFound
    | Redirect(location: string)
    | Serve(app: Option<App>, content: Content)

  const SCHEME := "https://"

  predicate OnDefaultHostname(clientDomain: string, host: string) {
    host == clientDomain || host == "localhost" || host == "hostmachine"
  }

  /** The custom domain the API reports for an environment ID. */
  function AppDomain(dir: Directory, api: Api, id: Id): Option<string> {
    if !api.config then None
    else
      match L.Resolve(dir.links, id)
      case Some(env) => L.Lookup(dir.domains.envDomain, env)
      case None => None
  }

  /** The environment ID the API reports for a custom domain. */
  function DomainId(dir: Directory, api: Api, host: string): Option<Id> {
    if !api.domains then None
    else
      match L.Lookup(dir.domains.domainEnv, host)
      case Some(env) => L.Lookup(dir.links.envId, env)
      case None => None
  }

  function Meaning(path: string, prefix: string): Content {
    match MatchFilePath(path, prefix)
    case Some(id) => File(id)
    case None => if MatchManifestPath(path, prefix) then Manifest else Page
  }

  /** What is left of a path below an environment's mount point on the default hostname. */
  function Remaining(path: string, id: Id): string
    requires |"/app/" + id| <= |path|
  {
    if path[|"/app/" + id|..] == "" then "/" else path[|"/app/" + id|..]
  }

  function Location(domain: string, url: Url, id: Id): string
    requires |"/app/" + id| <= |url.path|
  {
    SCHEME + (domain + (Remaining(url.path, id) + url.rest))
  }

  function RouteDefault(dir: Directory, api: Api, url: Url): Outcome {
    match AppPath(url.path)
    case Some(id) =>
      AppPathMeaning(url.path, id);
      (match AppDomain(dir, api, id)
       case Some(domain) => if domain != "" then Redirect(Location(domain, url, id))
                            else Serve(Some(App(id, Mount(id))), Meaning(url.path, Mount(id)))
       case None => Serve(Some(App(id, Mount(id))), Meaning(url.path, Mount(id))))
    case None => Serve(None, Page)
  }

  function RouteCustom(dir: Directory, api: Api, url: Url): Outcome {
    match DomainId(dir, api, url.host)
    case Some(id) => Serve(Some(App(id, "/")), Meaning(url.path, "/"))
    case None => NotFound
  }

  function Route(dir: Directory, api: Api, clientDomain: string, url: Url): Outcome {
    if url.path == "/stats.js" then Analytics
    else if OnDefaultHostname(clientDomain, url.host) then RouteDefault(dir, api, url)
    else RouteCustom(dir, api, url)
  }

  /** The worker's request handler. */
  method Fetch(dir: Directory, api: Api, clientDomain: string, url: Url) returns (outcome: Outcome)
    ensures outcome == Route(dir, api, clientDomain, url)
  {
    if url.path == "/stats.js" {
      return Analytics;
    }
    var onDefaultHostname := url.host == clientDomain || url.host == "localhost" || url.host == "hostmachine";
    var app: Option<App> := None;
    if onDefaultHostname {
      var id := AppPath(url.path);
      if id.Some? {
        app := Some(App(id.value, Mount(id.value)));
      }
    } else {
      var resolved := DomainId(dir, api, url.host);
      if resolved.None? {
        return NotFound;
      }
      app := Some(App(resolved.value, "/"));
    }
    if onDefaultHostname && app.Some? {
      var domain := AppDomain(dir, api, app.value.id);
      if domain.Some? && domain.value != "" {
        AppPathMeaning(url.path, app.value.id);
        return Redirect(Location(domain.value, url, app.value.id));
      }
    }
    if app.Some? {
      var file := MatchFilePath(url.path, app.value.prefix);
      if file.Some? {
        return Serve(app, File(file.value));
      }
      if MatchManifestPath(url.path, app.value.prefix) {
        return Serve(app, Manifest);
      }
    }
    outcome := Serve(app, Page);
  }

  // ---- What is served where ----

  predicate IsFile(path: string, prefix: string, id: string) {
    Segment(id) && path in {prefix + "files/" + id, prefix + "files/" + id + "/"}
  }

  predicate IsManifest(path: string, prefix: string) {
    path in {prefix + "app.webmanifest", prefix + "app.webmanifest/"}
  }

  /** What a path stands for below the path an app is mounted at. */
  ghost predicate IsContent(path: string, prefix: string, content: Content) {
    match content
    case File(id) => IsFile(path, prefix, id)
    case Manifest => IsManifest(path, prefix)
    case Page => !IsManifest(path, prefix) && forall id :: !IsFile(path, prefix, id)
  }

  lemma NoFileIsManifest(path: string, prefix: string, id: string)
    requires IsFile(path, prefix, id)
    ensures !IsManifest(path, prefix)
  {
    assert prefix + "files/" + id == prefix + ("files/" + id);
    assert prefix + "files/" + id + "/" == prefix + ("files/" + id + "/");
    assert path[|prefix|] == "files/"[0];
    assert (prefix + "app.webmanifest")[|prefix|] == 'a' && (prefix + "app.webmanifest/")[|prefix|] == 'a';
  }

  lemma MeaningIsContent(path: string, prefix: string, content: Content)
    ensures Meaning(path, prefix) == content <==> IsContent(path, prefix, content)
  {
    forall id
      ensures MatchFilePath(path, prefix) == Some(id) <==> IsFile(path, prefix, id)
      ensures IsFile(path, prefix, id) ==> !IsManifest(path, prefix)
    {
      FilePathMeaning(path, prefix, id);
      if IsFile(path, prefix, id) {
        NoFileIsManifest(path, prefix, id);
      }
    }
    if MatchFilePath(path, prefix).Some? {
      assert IsFile(path, prefix, MatchFilePath(path, prefix).value);
    }
  }

  /** On a hostname that is mapped to an environment, its app is served from the root: attachments, the manifest, and
      the page for everything else. */
  lemma CustomHostServes(
      dir: Directory, api: Api, clientDomain: string, url: Url, env: Domains.Env, id: Id, content: Content)
    requires !OnDefaultHostname(clientDomain, url.host) && url.path != "/stats.js"
    requires api.domains && L.Lookup(dir.domains.domainEnv, url.host) == Some(env)
    requires L.Lookup(dir.links.envId, env) == Some(id)
    ensures Route(dir, api, clientDomain, url) == Serve(Some(App(id, "/")), content) <==>
            IsContent(url.path, "/", content)
  {
    MeaningIsContent(url.path, "/", content);
  }

  /** On the default hostname it is served from its mount point, unless it is known to have a domain. */
  lemma DefaultHostServes(dir: Directory, api: Api, clientDomain: string, url: Url, id: Id, content: Content)
    requires OnDefaultHostname(clientDomain, url.host)
    requires Segment(id) && (url.path == "/app/" + id || Mount(id) <= url.path)
    requires api.config && L.Resolve(dir.links, id).Some? ==>
               L.Lookup(dir.domains.envDomain, L.Resolve(dir.links, id).value) in {None, Some("")}
    ensures Route(dir, api, clientDomain, url) == Serve(Some(App(id, Mount(id))), content) <==>
            IsContent(url.path, Mount(id), content)
  {
    AppPathMeaning(url.path, id);
    MeaningIsContent(url.path, Mount(id), content);
    assert url.path[1] == "/app/"[1] && "/stats.js"[1] == 's';
  }

  /** The remaining answers: the script, the missing page of an unmapped hostname, and the pages of no environment. */
  lemma OtherAnswers(dir: Directory, api: Api, clientDomain: string, url: Url)
    ensures Route(dir, api, clientDomain, url) == Analytics <==> url.path == "/stats.js"
    ensures Route(dir, api, clientDomain, url) == NotFound <==>
            && url.path != "/stats.js" && !OnDefaultHostname(clientDomain, url.host)
            && (|| !api.domains || url.host !in dir.domains.domainEnv
                || dir.domains.domainEnv[url.host] !in dir.links.envId)
    ensures Route(dir, api, clientDomain, url) == Serve(None, Page) <==>
            && url.path != "/stats.js" && OnDefaultHostname(clientDomain, url.host)
            && forall id | Segment(id) :: url.path != "/app/" + id && !(Mount(id) <= url.path)
  {
    forall id
      ensures AppPath(url.path) == Some(id) <==> Segment(id) && (url.path == "/app/" + id || Mount(id) <= url.path)
    {
      AppPathMeaning(url.path, id);
    }
    if AppPath(url.path).Some? {
      assert AppPath(url.path) == Some(AppPath(url.path).value);
    }
  }

  // ---- Following the redirect ----

  /** Reads an `https` URL as a browser does. */
  function ParseUrl(location: string): Option<Url> {
    if SCHEME <= location then Some(ParseBehindScheme(location[|SCHEME|..])) else None
  }

  function ParseBehindScheme(s: string): Url {
    var h := IndexOf(s, {'/', '?', '#'});
    var p := IndexOf(s[h..], {'?', '#'});
    Url(s[..h], if p == 0 then "/" else s[h..][..p], s[h..][p..])
  }

  ghost predicate IsUrl(url: Url) {
    && (forall c | c in url.path :: c !in {'?', '#'})
    && (url.rest == "" || url.rest[0] in {'?', '#'})
  }

  /** What the API accepts as a custom domain: a hostname with a dot. */
  ghost predicate IsDomain(domain: string) {
    '.' in domain && forall c | c in domain :: c !in {'/', '?', '#'}
  }

  lemma RemainingIsAPath(path: string, id: Id)
    requires AppPath(path) == Some(id)
    ensures |"/app/" + id| <= |path|
    ensures "/" <= Remaining(path, id)
    ensures forall c | c in Remaining(path, id) :: c == '/' || c in path
    ensures path == "/app/" + id || path == "/app/" + id + Remaining(path, id)
  {
  }

  lemma PartsParse(domain: string, path: string, rest: string)
    requires IsDomain(domain) && IsUrl(Url(domain, path, rest)) && "/" <= path
    ensures ParseBehindScheme(domain + (path + rest)) == Url(domain, path, rest)
  {
    var s := domain + (path + rest);
    IndexAfter(domain, path + rest, {'/', '?', '#'});
    assert s[..|domain|] == domain && s[|domain|..] == path + rest;
    IndexAfter(path, rest, {'?', '#'});
    assert (path + rest)[..|path|] == path && (path + rest)[|path|..] == rest;
  }

  lemma TargetParses(domain: string, url: Url, id: Id)
    requires IsDomain(domain) && IsUrl(url) && AppPath(url.path) == Some(id)
    ensures |"/app/" + id| <= |url.path|
    ensures ParseUrl(Location(domain, url, id)) == Some(Url(domain, Remaining(url.path, id), url.rest))
  {
    RemainingIsAPath(url.path, id);
    var path := Remaining(url.path, id);
    PartsParse(domain, path, url.rest);
    BehindScheme(SCHEME, domain + (path + url.rest));
  }

  lemma BehindScheme(scheme: string, s: string)
    ensures scheme <= scheme + s && (scheme + s)[|scheme|..] == s
  {
  }

  /** Taking the mount point off a path keeps what it asks for. */
  lemma StrippingKeepsMeaning(path: string, id: Id)
    requires AppPath(path) == Some(id)
    ensures |"/app/" + id| <= |path|
    ensures Meaning(Remaining(path, id), "/") == Meaning(path, Mount(id))
  {
    RemainingIsAPath(path, id);
    var mount, rest := "/app/" + id, Remaining(path, id);
    assert Mount(id) == mount + "/";
    if path == mount {
      assert |mount + "/"| > |path|;
    } else {
      SameFile(mount, rest);
      SameManifest(mount, rest);
    }
  }

  lemma SameFile(mount: string, path: string)
    ensures MatchFilePath(mount + path, mount + "/") == MatchFilePath(path, "/")
  {
    Stripped(mount, path, "files/");
  }

  lemma SameManifest(mount: string, path: string)
    ensures MatchManifestPath(mount + path, mount + "/") <==> MatchManifestPath(path, "/")
  {
    Stripped(mount, path, "app.webmanifest");
    Stripped(mount, path, "app.webmanifest/");
  }

  lemma Stripped(mount: string, path: string, name: string)
    ensures (mount + "/") + name <= mount + path <==> "/" + name <= path
    ensures (mount + "/") + name == mount + path <==> "/" + name == path
    ensures "/" + name <= path ==> (mount + path)[|(mount + "/") + name|..] == path[|"/" + name|..]
  {
    assert (mount + "/") + name == mount + ("/" + name);
    assert (mount + path)[|mount|..] == path;
    if "/" + name <= path {
      assert path == ("/" + name) + path[|"/" + name|..];
    }
    if (mount + "/") + name <= mount + path {
      assert (mount + path)[..|mount + ("/" + name)|][|mount|..] == path[..|"/" + name|];
    }
  }

  /** Following the redirect of an environment's old address serves that same environment, from the root and
      without another redirect, with the same content, exactly when the hostname can be looked up, the domain is not
      the app's own hostname, the reverse map agrees, and the path is not the one the worker answers itself. */
  lemma RedirectLandsHome(
      dir: Directory, api: Api, later: Api, clientDomain: string, url: Url, id: Id, env: Domains.Env)
    requires L.Sound(dir.links)
    requires IsUrl(url) && OnDefaultHostname(clientDomain, url.host) && AppPath(url.path) == Some(id)
    requires L.Resolve(dir.links, id) == Some(env)
    requires env in dir.domains.envDomain && IsDomain(dir.domains.envDomain[env])
    ensures |"/app/" + id| <= |url.path|
    ensures var domain := dir.domains.envDomain[env];
            var target := Url(domain, Remaining(url.path, id), url.rest);
            var landed := Route(dir, later, clientDomain, target);
            && (Route(dir, api, clientDomain, url) == Redirect(Location(domain, url, id)) <==> api.config)
            && ParseUrl(Location(domain, url, id)) == Some(target)
            && (landed == Serve(Some(App(id, "/")), Meaning(url.path, Mount(id))) <==>
                && later.domains
                && domain != clientDomain
                && L.Lookup(dir.domains.domainEnv, domain) == Some(env)
                && Remaining(url.path, id) != "/stats.js")
            && (landed.Redirect? ==> domain == clientDomain)
  {
    TargetParses(dir.domains.envDomain[env], url, id);
    StrippingKeepsMeaning(url.path, id);
    Landing(dir, later, clientDomain, Url(dir.domains.envDomain[env], Remaining(url.path, id), url.rest), id, env);
    RedirectTaken(dir, api, clientDomain, url, id, env);
  }

  lemma RedirectTaken(dir: Directory, api: Api, clientDomain: string, url: Url, id: Id, env: Domains.Env)
    requires OnDefaultHostname(clientDomain, url.host) && AppPath(url.path) == Some(id)
    requires L.Resolve(dir.links, id) == Some(env)
    requires env in dir.domains.envDomain && IsDomain(dir.domains.envDomain[env])
    ensures |"/app/" + id| <= |url.path|
    ensures Route(dir, api, clientDomain, url) ==
            if api.config then Redirect(Location(dir.domains.envDomain[env], url, id))
            else Serve(Some(App(id, Mount(id))), Meaning(url.path, Mount(id)))
  {
    AppPathMeaning(url.path, id);
    assert dir.domains.envDomain[env] != "";
    assert url.path[1] == "/app/"[1] && "/stats.js"[1] == 's';
  }

  lemma Landing(dir: Directory, api: Api, clientDomain: string, url: Url, id: Id, env: Domains.Env)
    requires L.Sound(dir.links) && L.Resolve(dir.links, id) == Some(env) && IsDomain(url.host)
    ensures Route(dir, api, clientDomain, url) == Serve(Some(App(id, "/")), Meaning(url.path, "/")) <==>
            && api.domains
            && url.host != clientDomain
            && L.Lookup(dir.domains.domainEnv, url.host) == Some(env)
            && url.path != "/stats.js"
    ensures Route(dir, api, clientDomain, url).Redirect? ==> url.host == clientDomain
  {
    assert '.' !in "localhost" && '.' !in "hostmachine";
    match L.Lookup(dir.domains.domainEnv, url.host)
    case Some(owner) => L.ResolvesExactlyCurrent(dir.links, owner, id);
    case None =>
  }

  /** With the domain maps mutually inverse, as runs without crashes keep them, only the domain itself matters, if it
      can be looked up. */
  lemma RedirectLandsHomeWhenInverse(dir: Directory, api: Api, clientDomain: string, url: Url, id: Id, env: Domains.Env)
    requires L.Sound(dir.links) && Domains.MutuallyInverse(dir.domains)
    requires IsUrl(url) && OnDefaultHostname(clientDomain, url.host) && AppPath(url.path) == Some(id)
    requires L.Resolve(dir.links, id) == Some(env)
    requires env in dir.domains.envDomain && IsDomain(dir.domains.envDomain[env])
    requires url.path != "/app/" + id + "/stats.js"
    ensures var target := ParseUrl(Location(dir.domains.envDomain[env], url, id));
            && |"/app/" + id| <= |url.path| && target.Some?
            && (Route(dir, api, clientDomain, target.value) ==
                Serve(Some(App(id, "/")), Meaning(url.path, Mount(id))) <==>
                api.domains && dir.domains.envDomain[env] != clientDomain)
  {
    RedirectLandsHome(dir, api, api, clientDomain, url, id, env);
    RemainingIsAPath(url.path, id);
  }

  /** Nothing stops an environment from claiming the app's own hostname, and then its app is gone: its start
      page redirects to the home page. */
  lemma OwnHostnameHidesTheApp(links: L.Links, api: Api, clientDomain: string, id: Id, env: Domains.Env)
    requires L.Resolve(links, id) == Some(env) && Segment(id) && IsDomain(clientDomain)
    requires IsUrl(Url(clientDomain, "/app/" + id, "")) && api.config
    ensures var after := Domains.Complete(Domains.Maps(map[], map[]), Domains.PutDomain(env, clientDomain));
            var dir := Directory(after, links);
            var start := Url(clientDomain, "/app/" + id, "");
            && Domains.MutuallyInverse(after)
            && Route(dir, api, clientDomain, start) == Redirect(Location(clientDomain, start, id))
            && ParseUrl(Location(clientDomain, start, id)) == Some(Url(clientDomain, "/", ""))
            && Route(dir, api, clientDomain, Url(clientDomain, "/", "")) == Serve(None, Page)
  {
    var none := Domains.Maps(map[], map[]);
    var r := Domains.PutDomain(env, clientDomain);
    var after := Domains.Complete(none, r);
    Domains.CompleteKeepsInverse(none, r);
    Domains.CompleteTakesEffect(none, r);
    var start := Url(clientDomain, "/app/" + id, "");
    AppPathMeaning(start.path, id);
    assert start.path[|start.path|..] == "";
    RedirectTaken(Directory(after, links), api, clientDomain, start, id, env);
    TargetParses(clientDomain, start, id);
  }
}
