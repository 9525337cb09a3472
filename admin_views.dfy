/** The admin blueprint: the page that publishes a cert once an endpoint
    with its route has been registered in the web application. */
module AdminViews {
  import opened Seqs
  import opened Text
  import opened Models

  /** A request to the publishing page: a GET, or a POST of the form's
      `route` field. */
  datatype Request = Get | Post(route: string)

  /** What the page answers: a redirect to the certs list, the publishing
      page with the unpublished certs and perhaps an error message, or an
      unhandled exception (HTTP 500). */
  datatype Reply = Redirect(endpoint: string) | PublishPage(certs: seq<Cert>, msg: Option<string>) | ServerError

  /** The message shown when no endpoint has the requested name. */
  function NotFoundMessage(route: string): string
  {
    "Unable to publish cert as route '" + route + "' does not exists"
  }

  /** The message names the identifier that was asked for. */
  lemma NotFoundMessageNamesRoute(route: string)
    ensures Contains(NotFoundMessage(route), route)
  {
    var prefix := "Unable to publish cert as route '";
    var m := NotFoundMessage(route);
    assert m[|prefix|..|prefix| + |route|] == route;
    assert OccursAt(m, route, |prefix|);
    ContainsIff(m, route);
  }

  /** `manage_publishing`. A POST scans the registered endpoints for one
      named exactly like the submitted identifier; on a match the cert with
      that route is marked published (whatever its flag was) and the
      browser is sent to the certs list, and when no cert has that route
      the handler fails before anything is written. Without a match, and on
      a GET, nothing changes and the unpublished certs are shown. */
  method ManagePublishing(store: Store, registry: set<string>, request: Request) returns (reply: Reply)
    requires store.Valid()
    modifies store
    ensures store.Valid()
    ensures store.resources == old(store.resources) && store.courses == old(store.courses)
    ensures store.sections == old(store.sections)
    ensures PublishedAreLive(old(store.certs), registry) ==> PublishedAreLive(store.certs, registry)
    ensures request.Get? ==>
              reply == PublishPage(WithStatus(old(store.certs), false), None) && store.certs == old(store.certs)
    ensures request.Post? && request.route !in registry ==>
              reply == PublishPage(WithStatus(old(store.certs), false), Some(NotFoundMessage(request.route)))
              && store.certs == old(store.certs)
    ensures request.Post? && request.route in registry ==>
              match RouteIndex(old(store.certs), request.route)
              case None => reply == ServerError && store.certs == old(store.certs)
              case Some(i) => reply == Redirect("certs.certs") && store.certs == SetPublished(old(store.certs), i)
  {
    if request.Post? {
      var route := request.route;
      var found := HasEndpoint(registry, route);
      if found {
        var index := RouteIndex(store.certs, route);
        if index.None? {
          return ServerError;
        }
        store.Publish(index.value);
        return Redirect("certs.certs");
      }
      var certs := store.FindUnpublished();
      return PublishPage(certs, Some(NotFoundMessage(route)));
    }
    var certs := store.FindUnpublished();
    reply := PublishPage(certs, None);
  }
}
