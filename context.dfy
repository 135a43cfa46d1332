/**
 * `RpcRequestContext`: the process-wide registry of sender handlers by
 * application name, and the slot holding the router server once the
 * application has started it. The static state is one instance here.
 */
module Context {
  import opened Wrappers
  import opened Sender

  class RpcRequestContext {
    /** SENDER_HANDLER_MAP */
    var handlers: map<string, RequestSenderHandler>
    /** The static `routerServer` field; None until it is set. */
    var routerServer: Option<RouterServer>

    constructor ()
      ensures handlers == map[] && routerServer == None
    {
      handlers := map[];
      routerServer := None;
    }

    /** `getHandler(appName)`: null for a name never put. */
    function GetHandler(appName: string): (r: Option<RequestSenderHandler>)
      reads this
      ensures r.Some? <==> appName in handlers
      ensures r.Some? ==> r.value == handlers[appName]
    {
      if appName in handlers then Some(handlers[appName]) else None
    }

    /** `putHandler(appName, handler)`: the name now maps to the handler, in
        place of any earlier one; every other name keeps its handler. */
    method PutHandler(appName: string, handler: RequestSenderHandler)
      modifies this
      ensures GetHandler(appName) == Some(handler)
      ensures forall a :: a != appName ==> GetHandler(a) == old(GetHandler(a))
      ensures handlers == old(handlers)[appName := handler]
      ensures routerServer == old(routerServer)
    {
      handlers := handlers[appName := handler];
    }

    /** `setRouterServer(routerServer)`. */
    method SetRouterServer(router: Option<RouterServer>)
      modifies this
      ensures GetRouterServer() == router
      ensures handlers == old(handlers)
    {
      routerServer := router;
    }

    /** `getRouterServer()`: the last router set, null before any. */
    function GetRouterServer(): Option<RouterServer>
      reads this
    {
      routerServer
    }
  }

  /** The registry through a sequence of calls: a name never put has no
      handler, a second put for a name replaces the first and leaves other
      names alone, and the router slot reads back what was last set. */
  method RegistryScenario(h1: RequestSenderHandler, h2: RequestSenderHandler, h3: RequestSenderHandler,
                          r1: RouterServer, r2: RouterServer)
    returns (c: RpcRequestContext)
    ensures fresh(c)
    ensures c.GetHandler("x") == Some(h2) && c.GetHandler("y") == Some(h3) && c.GetHandler("z") == None
    ensures c.GetRouterServer() == Some(r2)
  {
    c := new RpcRequestContext();
    assert c.GetHandler("x") == None && c.GetRouterServer() == None;
    c.PutHandler("x", h1);
    c.PutHandler("y", h3);
    c.PutHandler("x", h2);
    c.SetRouterServer(Some(r1));
    c.SetRouterServer(Some(r2));
  }
}
