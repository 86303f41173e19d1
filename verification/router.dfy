/** `AcServer`: the routing of an incoming request. The resource tree is
    not modelled: the lookup of the request's URI is a parameter (the path
    of the resource found, or none), and so is whether an inline handler
    produced a response. A request for a resource below
    `/<apps_resource_id>/<running_resource_id>/<app>` goes to that app's
    work queue; any other resource is handled on the receiver thread. */
module AcServer {
  import opened Wrappers
  import opened JavaText
  import opened ConfigStore
  import opened Coap
  import opened App
  import opened AppResource
  import ServerConfig
  import WorkQueue

  /** `getAppName`: the third path segment after the apps and running
      resource identifiers, or none. The path is split the way
      `String.split("/")` does, so segment 0 is the empty text before the
      leading '/'. */
  function GetAppName(server: Store, path: string): (name: Option<string>)
    ensures name.Some? <==> var parts := Split(path, '/');
      |parts| > 3 && Some(parts[1]) == Get(server, ServerConfig.AppsResourceId)
      && Some(parts[2]) == Get(server, ServerConfig.RunningResourceId)
    ensures name.Some? ==> name.value == Split(path, '/')[3]
  {
    var parts := Split(path, '/');
    var idapps := Get(server, ServerConfig.AppsResourceId);
    var idrun := Get(server, ServerConfig.RunningResourceId);
    if |parts| > 3 && Some(parts[1]) == idapps && Some(parts[2]) == idrun then Some(parts[3]) else None
  }

  /** The path of a resource below a running app, built from its segments. */
  function AppPath(idapps: string, idrun: string, app: string, tail: string): string {
    "/" + idapps + "/" + idrun + "/" + app + tail
  }

  /** The raw pieces of an app path start with the empty text before the
      leading '/', then the three segments. */
  lemma RawSplitOfAppPath(idapps: string, idrun: string, app: string, tail: string)
    requires '/' !in idapps && '/' !in idrun
    requires app != "" && '/' !in app
    requires tail == "" || tail[0] == '/'
    ensures var raw := RawSplit(AppPath(idapps, idrun, app, tail), '/');
      |raw| > 3 && raw[0] == "" && raw[1] == idapps && raw[2] == idrun && raw[3] == app
  {
    var path := AppPath(idapps, idrun, app, tail);
    assert path == "" + ['/'] + (idapps + ['/'] + (idrun + ['/'] + (app + tail)));
    RawSplitAfterPiece("", idapps + ['/'] + (idrun + ['/'] + (app + tail)), '/');
    RawSplitAfterPiece(idapps, idrun + ['/'] + (app + tail), '/');
    RawSplitAfterPiece(idrun, app + tail, '/');
    if tail == "" {
      assert app + tail == app;
      RawSplitNoDelimiter(app, '/');
    } else {
      assert tail == [] + ['/'] + tail[1..];
      assert app + tail == app + ['/'] + tail[1..];
      RawSplitAfterPiece(app, tail[1..], '/');
    }
  }

  /** Every resource below a running app is routed to that app: the name
      `getAppName` reads back is the app segment of the path. */
  lemma GetAppNameOfAppPath(server: Store, app: string, tail: string)
    requires ServerConfig.AppsResourceId in server && ServerConfig.RunningResourceId in server
    requires '/' !in server[ServerConfig.AppsResourceId] && '/' !in server[ServerConfig.RunningResourceId]
    requires app != "" && '/' !in app
    requires tail == "" || tail[0] == '/'
    ensures var path := AppPath(server[ServerConfig.AppsResourceId], server[ServerConfig.RunningResourceId], app, tail);
      GetAppName(server, path) == Some(app)
  {
    var idapps := server[ServerConfig.AppsResourceId];
    var idrun := server[ServerConfig.RunningResourceId];
    var path := AppPath(idapps, idrun, app, tail);
    var raw := RawSplit(path, '/');
    RawSplitOfAppPath(idapps, idrun, app, tail);
    assert path[0] == '/';
    KeepsUpToNonEmpty(raw, 3);
    SplitIsTrimmedPieces(path, '/');
    var parts := Split(path, '/');
    assert parts[1] == idapps && parts[2] == idrun && parts[3] == app;
  }

  /** Under the default configuration apps live below "/installed/apps/". */
  lemma DefaultAppPath(app: string, tail: string)
    requires app != "" && '/' !in app
    requires tail == "" || tail[0] == '/'
    ensures GetAppName(ServerConfig.Load(None), AppPath("installed", "apps", app, tail)) == Some(app)
  {
    ServerConfig.DefaultValues();
    var server := ServerConfig.Load(None);
    assert server[ServerConfig.AppsResourceId] == "installed";
    assert server[ServerConfig.RunningResourceId] == "apps";
    GetAppNameOfAppPath(server, app, tail);
  }

  // -------------------------------------------------------------- routing

  /** What happens to one request. */
  datatype Routing =
    | Ignored                     // a null request
    | NoResource                  // answered 4.04 Not Found and sent
    | Enqueued(app: nat)          // handed to the work queue of the app at this position
    | Inline(sent: bool)          // handled on the receiver thread; sent iff it produced a response

  /** The exception `deliverRequest` can raise: `getApp` found no app for
      the name in the path and the null app was dereferenced. */
  datatype RouteError = NoSuchApp

  /** The code a routing answers with itself, if any. */
  function AnswerCode(r: Routing): Option<Code> {
    if r.NoResource? then Some(Coap.NotFound) else None
  }

  /** `deliverRequest` as written: no resource is answered 4.04 and sent;
      a resource below an app goes to the queue of the app `getApp` finds
      under the name in the path, by its exact name, although the path
      holds the app's resource identifier, its lower-case name; any other
      resource is handled inline and answered iff it produced a response. */
  function DeliverRequestAsWritten(server: Store, reg: Registry, request: Option<nat>,
                                   resource: Option<string>, responds: bool)
    : (out: Result<(Registry, Routing), RouteError>)
    ensures request.None? ==> out == Success((reg, Ignored))
    ensures request.Some? && resource.None? ==> out == Success((reg, NoResource))
    ensures request.Some? && resource.Some? && GetAppName(server, resource.value).None? ==>
      out == Success((reg, Inline(responds)))
    ensures out.Failure? <==> (request.Some? && resource.Some? && GetAppName(server, resource.value).Some?
      && forall j :: 0 <= j < |reg.apps| ==> reg.apps[j].name != GetAppName(server, resource.value).value)
    ensures out.Success? && out.value.1.Enqueued? ==>
      var i := out.value.1.app;
      && i < |reg.apps| && |out.value.0.apps| == |reg.apps|
      && reg.apps[i].name == GetAppName(server, resource.value).value
      && out.value.0.apps[i].worker.queue
           == reg.apps[i].worker.queue + [WorkQueue.RequestDelivery(request.value, resource.value)]
      && out.value.0.apps[i] == reg.apps[i].(worker := out.value.0.apps[i].worker)
      && (forall j :: 0 <= j < |reg.apps| && j != i ==> out.value.0.apps[j] == reg.apps[j])
      && out.value.0.running == reg.running
    ensures out.Success? && !out.value.1.Enqueued? ==> out.value.0 == reg
  {
    match request
    case None => Success((reg, Ignored))
    case Some(req) =>
      match resource
      case None => Success((reg, NoResource))
      case Some(path) =>
        match GetAppName(server, path)
        case None => Success((reg, Inline(responds)))
        case Some(name) =>
          match GetApp(reg, Some(name))
          case None => Failure(NoSuchApp)
          case Some(i) =>
            Success((reg.(apps := reg.apps[i := DeliverRequestToSubResource(reg.apps[i], req, path)]), Enqueued(i)))
  }

  /** A request for a resource of an app whose name has a capital letter
      never reaches the app: the lookup under the lower-case identifier
      fails and the request is dropped. */
  lemma CapitalisedAppIsUnreachable(server: Store, reg: Registry, i: nat, request: nat, tail: string, responds: bool)
    requires i < |reg.apps| && HasUpper(reg.apps[i].name) && '/' !in reg.apps[i].name
    requires forall j :: 0 <= j < |reg.apps| ==> reg.apps[j].name != ResourceId(reg.apps[i])
    requires ServerConfig.AppsResourceId in server && ServerConfig.RunningResourceId in server
    requires '/' !in server[ServerConfig.AppsResourceId] && '/' !in server[ServerConfig.RunningResourceId]
    requires tail == "" || tail[0] == '/'
    ensures var path := AppPath(server[ServerConfig.AppsResourceId], server[ServerConfig.RunningResourceId],
                                ResourceId(reg.apps[i]), tail);
      DeliverRequestAsWritten(server, reg, Some(request), Some(path), responds).Failure?
  {
    var id := ResourceId(reg.apps[i]);
    assert '/' !in id by {
      forall k | 0 <= k < |id| ensures id[k] != '/' {
        assert id[k] == LowerChar(reg.apps[i].name[k]);
      }
    }
    assert id != "" by {
      var k :| 0 <= k < |reg.apps[i].name| && 'A' <= reg.apps[i].name[k] <= 'Z';
    }
    GetAppNameOfAppPath(server, id, tail);
    GetAppIsCaseSensitive(reg, i);
  }

  /** The app a request path names: the first app whose resource identifier
      is that name. */
  function AppByResourceId(reg: Registry, id: string): (found: Option<nat>)
    ensures found.Some? ==> (found.value < |reg.apps| && ResourceId(reg.apps[found.value]) == id
      && forall j :: 0 <= j < found.value ==> ResourceId(reg.apps[j]) != id)
    ensures found.None? ==> forall j :: 0 <= j < |reg.apps| ==> ResourceId(reg.apps[j]) != id
  {
    FirstWithId(reg.apps, id, 0)
  }

  function FirstWithId(apps: seq<AppState>, id: string, from: nat): (found: Option<nat>)
    requires from <= |apps|
    ensures found.Some? ==> (from <= found.value < |apps| && ResourceId(apps[found.value]) == id
      && forall j :: from <= j < found.value ==> ResourceId(apps[j]) != id)
    ensures found.None? ==> forall j :: from <= j < |apps| ==> ResourceId(apps[j]) != id
    decreases |apps| - from
  {
    if from == |apps| then None
    else if ResourceId(apps[from]) == id then Some(from)
    else FirstWithId(apps, id, from + 1)
  }

  /** `deliverRequest`, with the app looked up by its resource identifier:
      no resource is answered 4.04 and sent; a resource below an app goes
      to that app's queue and to nothing else; any other resource is
      handled inline and answered iff it produced a response. */
  function DeliverRequest(server: Store, reg: Registry, request: Option<nat>,
                          resource: Option<string>, responds: bool)
    : (out: Result<(Registry, Routing), RouteError>)
    ensures request.None? ==> out == Success((reg, Ignored))
    ensures request.Some? && resource.None? ==> out == Success((reg, NoResource))
    ensures request.Some? && resource.Some? && GetAppName(server, resource.value).None? ==>
      out == Success((reg, Inline(responds)))
    ensures out.Failure? <==> (request.Some? && resource.Some? && GetAppName(server, resource.value).Some?
      && AppByResourceId(reg, GetAppName(server, resource.value).value).None?)
    ensures out.Success? && out.value.1.Enqueued? ==>
      var i := out.value.1.app;
      && i < |reg.apps| && |out.value.0.apps| == |reg.apps|
      && ResourceId(reg.apps[i]) == GetAppName(server, resource.value).value
      && out.value.0.apps[i].worker.queue
           == reg.apps[i].worker.queue + [WorkQueue.RequestDelivery(request.value, resource.value)]
      && out.value.0.apps[i] == reg.apps[i].(worker := out.value.0.apps[i].worker)
      && (forall j :: 0 <= j < |reg.apps| && j != i ==> out.value.0.apps[j] == reg.apps[j])
      && out.value.0.running == reg.running
    ensures out.Success? && !out.value.1.Enqueued? ==> out.value.0 == reg
  {
    match request
    case None => Success((reg, Ignored))
    case Some(req) =>
      match resource
      case None => Success((reg, NoResource))
      case Some(path) =>
        match GetAppName(server, path)
        case None => Success((reg, Inline(responds)))
        case Some(name) =>
          match AppByResourceId(reg, name)
          case None => Failure(NoSuchApp)
          case Some(i) =>
            Success((reg.(apps := reg.apps[i := DeliverRequestToSubResource(reg.apps[i], req, path)]), Enqueued(i)))
  }

  /** As long as no app name has a capital letter, the code as written
      routes exactly as the corrected lookup does. */
  lemma LowerCaseNamesRouteAlike(server: Store, reg: Registry, request: Option<nat>,
                                 resource: Option<string>, responds: bool)
    requires forall j :: 0 <= j < |reg.apps| ==> !HasUpper(reg.apps[j].name)
    ensures DeliverRequestAsWritten(server, reg, request, resource, responds)
         == DeliverRequest(server, reg, request, resource, responds)
  {
    forall j | 0 <= j < |reg.apps| ensures ResourceId(reg.apps[j]) == reg.apps[j].name {
      LowerFixesExactlyLowerCase(reg.apps[j].name);
    }
    if request.Some? && resource.Some? && GetAppName(server, resource.value).Some? {
      var name := GetAppName(server, resource.value).value;
      assert GetApp(reg, Some(name)) == AppByResourceId(reg, name);
    }
  }

  /** Every app is reachable under its resource identifier. */
  lemma EveryAppIsReachable(server: Store, reg: Registry, i: nat, request: nat, tail: string, responds: bool)
    requires i < |reg.apps| && reg.apps[i].name != "" && '/' !in reg.apps[i].name
    requires forall j :: 0 <= j < i ==> ResourceId(reg.apps[j]) != ResourceId(reg.apps[i])
    requires ServerConfig.AppsResourceId in server && ServerConfig.RunningResourceId in server
    requires '/' !in server[ServerConfig.AppsResourceId] && '/' !in server[ServerConfig.RunningResourceId]
    requires tail == "" || tail[0] == '/'
    ensures var path := AppPath(server[ServerConfig.AppsResourceId], server[ServerConfig.RunningResourceId],
                                ResourceId(reg.apps[i]), tail);
      var out := DeliverRequest(server, reg, Some(request), Some(path), responds);
      out.Success? && out.value.1 == Enqueued(i)
  {
    var id := ResourceId(reg.apps[i]);
    assert '/' !in id by {
      forall k | 0 <= k < |id| ensures id[k] != '/' {
        assert id[k] == LowerChar(reg.apps[i].name[k]);
      }
    }
    GetAppNameOfAppPath(server, id, tail);
  }

  /** `handleRequest`: statistics first, then delivery as written, each
      inside its own catch-all, so no exception escapes to the receiver
      thread; a request whose delivery fails is dropped unanswered and
      changes nothing. */
  function HandleRequest(server: Store, reg: Registry, request: Option<nat>,
                         resource: Option<string>, responds: bool)
    : (out: (Registry, Option<Routing>))
    ensures out.1.None? <==> DeliverRequestAsWritten(server, reg, request, resource, responds).Failure?
    ensures out.1.None? ==> out.0 == reg
    ensures out.1.Some? ==> (out.0, out.1.value) == DeliverRequestAsWritten(server, reg, request, resource, responds).value
  {
    match DeliverRequestAsWritten(server, reg, request, resource, responds)
    case Failure(_) => (reg, None)
    case Success((r, routing)) => (r, Some(routing))
  }

  /** Only a missing resource is answered by the router itself, with 4.04. */
  lemma RouterAnswersOnlyNotFound(server: Store, reg: Registry, request: nat, resource: Option<string>, responds: bool)
    ensures var out := HandleRequest(server, reg, Some(request), resource, responds);
      out.1.Some? && AnswerCode(out.1.value).Some? <==> resource.None?
    ensures resource.None? ==> HandleRequest(server, reg, Some(request), resource, responds).1 == Some(NoResource)
  {
  }
}
