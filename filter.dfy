/**
 * `AbstractFilter`: the Zuul filter base class. A subclass records the
 * endpoint's schema through the setters; `buildGen` turns the schema into a
 * request template, cached process-wide by a key derived from the schema;
 * `getResponse` fills in the call's arguments; the constructor binds the
 * filter to the sender handler registered for its application.
 */
module Filter {
  import opened Wrappers
  import opened Strings
  import opened Schema
  import opened ArgumentTree
  import opened Template
  import opened Parameters
  import opened Sender
  import opened Context

  const NoInterfaceFailure: string := "没有设置接口名!"
  const NoMethodFailure: string := "没有设置方法名!"
  const MalformedRecordFailure: string := "ArrayIndexOutOfBoundsException"
  const NoRouterFailure: string := "路由服务器无法载入, 无法启动处理器."
  const NullPointerFailure: string := "NullPointerException"

  /** GEN_MAP: request templates by schema key, shared by every filter. */
  class GenCache {
    var entries: map<string, string>

    constructor ()
      ensures entries == map[]
    {
      entries := map[];
    }
  }

  /** A cache hit: `buildGen` treats a blank cached template as a miss. */
  predicate IsHit(entries: map<string, string>, key: string): (r: bool)
    ensures r ==> key in entries && entries[key] != ""
    ensures key !in entries ==> !r
  {
    key in entries && !IsBlank(entries[key])
  }

  /** `StringUtil.isBlank` on a field that may be null. */
  predicate Blank(s: Option<string>) {
    s.None? || IsBlank(s.value)
  }

  /** `CommonUtil.nodeToJsonString(head, argumentMap, true)`, which is not
      part of this model: the template text, and the argument map it fills. */
  datatype Rendered = Rendered(json: string, argumentMap: map<string, string>)

  /** The objects a call may reach through an optional handler. */
  function HandlerSet(h: Option<RequestSenderHandler>): set<object> {
    if h.Some? then {h.value} else {}
  }

  /** The record loop of `buildGen`: split the buffer on the first marker,
      skip blank fragments, split each other fragment on the second marker
      and add its node, stopping at the first fragment that has no second
      piece. */
  method ReadRecords(t0: NodeTree, buffer: string, kind: Format) returns (tree: NodeTree, complete: bool)
    requires UniquePaths(t0.nodes)
    ensures tree == AddAll(t0, RecordNodes(ParseBuffer(buffer).bindings, kind))
    ensures complete == ParseBuffer(buffer).complete
  {
    var fragments := Split(buffer, MarkA);
    ghost var all := ParseFragments(fragments);
    ghost var done: seq<Binding> := [];
    tree := t0;
    var i := 0;
    complete := true;
    while i < |fragments|
      invariant 0 <= i <= |fragments|
      invariant all.bindings == done + ParseFragments(fragments[i..]).bindings
      invariant all.complete == ParseFragments(fragments[i..]).complete
      invariant tree == AddAll(t0, RecordNodes(done, kind))
      invariant complete
    {
      var fragment := fragments[i];
      ParseFragmentsStep(fragments, i);
      if IsBlank(fragment) {
        i := i + 1;
        continue;
      }
      match ParseFragment(fragment)
      case None =>
        complete := false;
        break;
      case Some(b) =>
        AddRecordStep(t0, done, b, kind);
        tree := AddNode(tree, RecordNode(b, kind));
        done := done + [b];
        i := i + 1;
    }
    if complete {
      assert fragments[i..] == [];
    }
    assert all == Parsed(done, complete);
  }

  class AbstractFilter {
    var serviceCode: Option<string>
    var appName: Option<string>
    var serviceInterface: Option<string>
    var methodName: Option<string>
    /** classInfoStringBuffer */
    var classInfoBuffer: string
    /** paramStringBuffer */
    var paramBuffer: string
    var argumentTree: Option<NodeTree>
    var argumentMap: Option<map<string, string>>
    var handler: Option<RequestSenderHandler>
    var routerServer: Option<RouterServer>
    /** The records appended so far, oldest first. */
    ghost var classInfo: seq<Binding>
    ghost var params: seq<Binding>

    ghost predicate Valid()
      reads this
    {
      && classInfoBuffer == Buffer(classInfo)
      && paramBuffer == Buffer(params)
      && (argumentTree.Some? ==> UniquePaths(argumentTree.value.nodes))
    }

    /** The buffers the constructor creates before `loadEnvironment`. */
    constructor ()
      ensures Valid()
      ensures classInfo == [] && params == [] && classInfoBuffer == "" && paramBuffer == ""
      ensures serviceCode == None && appName == None && serviceInterface == None && methodName == None
      ensures argumentTree == None && argumentMap == None && handler == None && routerServer == None
    {
      serviceCode, appName, serviceInterface, methodName := None, None, None, None;
      classInfoBuffer, paramBuffer := "", "";
      argumentTree, argumentMap := None, None;
      handler, routerServer := None, None;
      classInfo, params := [], [];
    }

    method SetServiceCode(code: string)
      modifies this
      ensures serviceCode == Some(code)
      ensures appName == old(appName) && serviceInterface == old(serviceInterface) && methodName == old(methodName)
      ensures classInfoBuffer == old(classInfoBuffer) && paramBuffer == old(paramBuffer)
      ensures classInfo == old(classInfo) && params == old(params)
      ensures argumentTree == old(argumentTree) && argumentMap == old(argumentMap)
      ensures handler == old(handler) && routerServer == old(routerServer)
    {
      serviceCode := Some(code);
    }

    method SetAppName(name: string)
      modifies this
      ensures appName == Some(name)
      ensures serviceCode == old(serviceCode) && serviceInterface == old(serviceInterface) && methodName == old(methodName)
      ensures classInfoBuffer == old(classInfoBuffer) && paramBuffer == old(paramBuffer)
      ensures classInfo == old(classInfo) && params == old(params)
      ensures argumentTree == old(argumentTree) && argumentMap == old(argumentMap)
      ensures handler == old(handler) && routerServer == old(routerServer)
    {
      appName := Some(name);
    }

    method SetServiceInterface(name: string)
      modifies this
      ensures serviceInterface == Some(name)
      ensures serviceCode == old(serviceCode) && appName == old(appName) && methodName == old(methodName)
      ensures classInfoBuffer == old(classInfoBuffer) && paramBuffer == old(paramBuffer)
      ensures classInfo == old(classInfo) && params == old(params)
      ensures argumentTree == old(argumentTree) && argumentMap == old(argumentMap)
      ensures handler == old(handler) && routerServer == old(routerServer)
    {
      serviceInterface := Some(name);
    }

    method SetMethodName(name: string)
      modifies this
      ensures methodName == Some(name)
      ensures serviceCode == old(serviceCode) && appName == old(appName) && serviceInterface == old(serviceInterface)
      ensures classInfoBuffer == old(classInfoBuffer) && paramBuffer == old(paramBuffer)
      ensures classInfo == old(classInfo) && params == old(params)
      ensures argumentTree == old(argumentTree) && argumentMap == old(argumentMap)
      ensures handler == old(handler) && routerServer == old(routerServer)
    {
      methodName := Some(name);
    }

    /** `setClassInfo(path, className)`: append one class-info record. */
    method SetClassInfo(path: string, className: string)
      requires Valid()
      modifies this
      ensures Valid()
      ensures classInfo == old(classInfo) + [Binding(path, className)]
      ensures classInfoBuffer == old(classInfoBuffer) + MarkA + path + MarkB + className + MarkA
      ensures paramBuffer == old(paramBuffer) && params == old(params)
      ensures serviceCode == old(serviceCode) && appName == old(appName)
      ensures serviceInterface == old(serviceInterface) && methodName == old(methodName)
      ensures argumentTree == old(argumentTree) && argumentMap == old(argumentMap)
      ensures handler == old(handler) && routerServer == old(routerServer)
    {
      BufferAppend(classInfo, Binding(path, className));
      classInfoBuffer := classInfoBuffer + MarkA + path + MarkB + className + MarkA;
      classInfo := classInfo + [Binding(path, className)];
    }

    /** `linkParameter(path, parameterKey)`: append one parameter link. */
    method LinkParameter(path: string, parameterKey: string)
      requires Valid()
      modifies this
      ensures Valid()
      ensures params == old(params) + [Binding(path, parameterKey)]
      ensures paramBuffer == old(paramBuffer) + MarkA + path + MarkB + parameterKey + MarkA
      ensures classInfoBuffer == old(classInfoBuffer) && classInfo == old(classInfo)
      ensures serviceCode == old(serviceCode) && appName == old(appName)
      ensures serviceInterface == old(serviceInterface) && methodName == old(methodName)
      ensures argumentTree == old(argumentTree) && argumentMap == old(argumentMap)
      ensures handler == old(handler) && routerServer == old(routerServer)
    {
      BufferAppend(params, Binding(path, parameterKey));
      paramBuffer := paramBuffer + MarkA + path + MarkB + parameterKey + MarkA;
      params := params + [Binding(path, parameterKey)];
    }

    /** `setArray(path)` on the tree being built. */
    method SetArrayNode(path: string)
      requires Valid() && argumentTree.Some?
      modifies this
      ensures Valid()
      ensures argumentTree == Some(SetArray(old(argumentTree.value), path))
      ensures GetNode(argumentTree.value, path).Some? && GetNode(argumentTree.value, path).value.isArray
      ensures forall p :: p != path ==> GetNode(argumentTree.value, p) == GetNode(old(argumentTree.value), p)
      ensures classInfoBuffer == old(classInfoBuffer) && paramBuffer == old(paramBuffer)
      ensures classInfo == old(classInfo) && params == old(params)
      ensures serviceCode == old(serviceCode) && appName == old(appName)
      ensures serviceInterface == old(serviceInterface) && methodName == old(methodName)
      ensures argumentMap == old(argumentMap) && handler == old(handler) && routerServer == old(routerServer)
    {
      argumentTree := Some(SetArray(argumentTree.value, path));
    }

    /** `addFixedNode(nodePath, value)`: a node whose value is used as is. */
    method AddFixedNode(nodePath: string, value: string)
      requires Valid() && argumentTree.Some?
      modifies this
      ensures Valid()
      ensures argumentTree == Some(AddNode(old(argumentTree.value), FixedNode(nodePath, value)))
      ensures GetNode(argumentTree.value, nodePath) == Some(Node(nodePath, Some(value), false, Literal))
      ensures forall p :: p != nodePath ==> GetNode(argumentTree.value, p) == GetNode(old(argumentTree.value), p)
      ensures classInfoBuffer == old(classInfoBuffer) && paramBuffer == old(paramBuffer)
      ensures classInfo == old(classInfo) && params == old(params)
      ensures serviceCode == old(serviceCode) && appName == old(appName)
      ensures serviceInterface == old(serviceInterface) && methodName == old(methodName)
      ensures argumentMap == old(argumentMap) && handler == old(handler) && routerServer == old(routerServer)
    {
      argumentTree := Some(AddNode(argumentTree.value, FixedNode(nodePath, value)));
    }

    /** One of the two record loops of `buildGen`, run on the tree being
        built. A fragment without the second marker makes `[1]` throw; the
        nodes added until then stay in the tree. */
    method AddRecords(buffer: string, kind: Format) returns (complete: bool)
      requires Valid() && argumentTree.Some?
      modifies this
      ensures Valid()
      ensures argumentTree == Some(AddAll(old(argumentTree.value), RecordNodes(ParseBuffer(buffer).bindings, kind)))
      ensures complete == ParseBuffer(buffer).complete
      ensures classInfoBuffer == old(classInfoBuffer) && paramBuffer == old(paramBuffer)
      ensures classInfo == old(classInfo) && params == old(params)
      ensures serviceCode == old(serviceCode) && appName == old(appName)
      ensures serviceInterface == old(serviceInterface) && methodName == old(methodName)
      ensures argumentMap == old(argumentMap) && handler == old(handler) && routerServer == old(routerServer)
    {
      var tree;
      tree, complete := ReadRecords(argumentTree.value, buffer, kind);
      argumentTree := Some(tree);
    }

    /** `buildGen()`: the request template for the recorded schema. A blank
        interface, then a blank method name, fail before the cache is read.
        A hit returns the cached template and leaves the tree and the
        argument map as they were. A miss builds a new tree, renders it,
        stores the template under the key and returns it. */
    method BuildGen(cache: GenCache, render: NodeTree -> Rendered) returns (r: Result<string, string>)
      requires Valid()
      modifies this, cache
      ensures Valid()
      ensures classInfoBuffer == old(classInfoBuffer) && paramBuffer == old(paramBuffer)
      ensures classInfo == old(classInfo) && params == old(params)
      ensures serviceCode == old(serviceCode) && appName == old(appName)
      ensures serviceInterface == old(serviceInterface) && methodName == old(methodName)
      ensures handler == old(handler) && routerServer == old(routerServer)
      ensures Blank(serviceInterface) ==> r == Failure(NoInterfaceFailure)
      ensures !Blank(serviceInterface) && Blank(methodName) ==> r == Failure(NoMethodFailure)
      ensures Blank(serviceInterface) || Blank(methodName) ==>
        cache.entries == old(cache.entries) && argumentTree == old(argumentTree) && argumentMap == old(argumentMap)
      ensures !Blank(serviceInterface) && !Blank(methodName) ==>
        var key := GenKey(serviceInterface.value, methodName.value, classInfoBuffer, paramBuffer);
        var c := CompileTree(serviceInterface.value, methodName.value, classInfoBuffer, paramBuffer);
        && (IsHit(old(cache.entries), key) ==>
             && r == Success(old(cache.entries)[key]) && cache.entries == old(cache.entries)
             && argumentTree == old(argumentTree) && argumentMap == old(argumentMap))
        && (!IsHit(old(cache.entries), key) ==> argumentTree == Some(c.tree))
        && (!IsHit(old(cache.entries), key) && c.complete ==>
             && r == Success(render(c.tree).json)
             && argumentMap == Some(render(c.tree).argumentMap)
             && cache.entries == old(cache.entries)[key := render(c.tree).json])
        && (!IsHit(old(cache.entries), key) && !c.complete ==>
             && r == Failure(MalformedRecordFailure)
             && argumentMap == Some(map[]) && cache.entries == old(cache.entries))
    {
      if Blank(serviceInterface) {
        return Failure(NoInterfaceFailure);
      }
      if Blank(methodName) {
        return Failure(NoMethodFailure);
      }
      var si, mn := serviceInterface.value, methodName.value;
      var key := GenKey(si, mn, classInfoBuffer, paramBuffer);
      if IsHit(cache.entries, key) {
        return Success(cache.entries[key]);
      }
      argumentTree := Some(EmptyTree());
      argumentMap := Some(map[]);
      SetArrayNode(ArgsPath);
      AddFixedNode(ServiceInterfacePath, si);
      AddFixedNode(MethodNamePath, mn);
      assert argumentTree == Some(BaseTree(si, mn));
      var classesRead := AddRecords(classInfoBuffer, Literal);
      if !classesRead {
        return Failure(MalformedRecordFailure);
      }
      var paramsRead := AddRecords(paramBuffer, DefaultFormat);
      if !paramsRead {
        return Failure(MalformedRecordFailure);
      }
      var rendered := render(argumentTree.value);
      argumentMap := Some(rendered.argumentMap);
      cache.entries := cache.entries[key := rendered.json];
      r := Success(rendered.json);
    }

    /** `getResponse()` up to the call into the base class: build the
        template, hand it to the handler, and compute the argument array.
        The argument map is null on an instance whose templates all came
        from the cache, and reading it then throws. */
    method GetResponseArguments(cache: GenCache, render: NodeTree -> Rendered, request: map<string, string>)
      returns (r: Result<seq<string>, string>)
      requires Valid()
      modifies this, cache, HandlerSet(handler)
      ensures Valid()
      ensures handler == old(handler)
      ensures r.Success? ==> handler.Some? && argumentMap.Some?
      ensures r.Success? ==>
        var m := argumentMap.value;
        && |r.value| == |m|
        && forall i :: 0 <= i < |m| ==>
             UnrenderParameter(r.value[i]) == Some(GetParameter(request, m[SortedKeys(m.Keys)[i]]))
      ensures handler.None? ==> r.Failure?
      ensures classInfoBuffer == old(classInfoBuffer) && paramBuffer == old(paramBuffer)
      ensures serviceInterface == old(serviceInterface) && methodName == old(methodName)
      ensures && !Blank(serviceInterface) && !Blank(methodName) && old(argumentMap).None?
              && IsHit(old(cache.entries), GenKey(serviceInterface.value, methodName.value, classInfoBuffer, paramBuffer))
              ==> r == Failure(NullPointerFailure)
      ensures Blank(serviceInterface) ==> r == Failure(NoInterfaceFailure)
      ensures !Blank(serviceInterface) && Blank(methodName) ==> r == Failure(NoMethodFailure)
      ensures !Blank(serviceInterface) && !Blank(methodName) ==>
        var key := GenKey(serviceInterface.value, methodName.value, classInfoBuffer, paramBuffer);
        var c := CompileTree(serviceInterface.value, methodName.value, classInfoBuffer, paramBuffer);
        && (!IsHit(old(cache.entries), key) && !c.complete ==> r == Failure(MalformedRecordFailure))
        && (handler.Some? && (IsHit(old(cache.entries), key) || c.complete) ==>
             handler.value.requestGen
               == Some(if IsHit(old(cache.entries), key) then old(cache.entries)[key] else render(c.tree).json))
      ensures handler.Some? ==>
        && handler.value.requestMap == old(handler.value.requestMap)
        && handler.value.resultMap == old(handler.value.resultMap)
        && handler.value.released == old(handler.value.released)
      ensures handler.Some? && r.Failure? && r.error != NullPointerFailure ==>
        handler.value.requestGen == old(handler.value.requestGen)
      ensures Blank(serviceInterface) || Blank(methodName) ==>
        cache.entries == old(cache.entries) && argumentTree == old(argumentTree) && argumentMap == old(argumentMap)
      ensures !Blank(serviceInterface) && !Blank(methodName) ==>
        var key := GenKey(serviceInterface.value, methodName.value, classInfoBuffer, paramBuffer);
        var c := CompileTree(serviceInterface.value, methodName.value, classInfoBuffer, paramBuffer);
        var hit := IsHit(old(cache.entries), key);
        && (hit ==> cache.entries == old(cache.entries) && argumentTree == old(argumentTree) && argumentMap == old(argumentMap))
        && (!hit ==> argumentTree == Some(c.tree))
        && (!hit && c.complete ==>
             argumentMap == Some(render(c.tree).argumentMap) && cache.entries == old(cache.entries)[key := render(c.tree).json])
        && (!hit && !c.complete ==> argumentMap == Some(map[]) && cache.entries == old(cache.entries))
        && (r.Success? <==> handler.Some? && (if hit then old(argumentMap).Some? else c.complete))
        && (r.Success? ==> argumentMap.value == if hit then old(argumentMap).value else render(c.tree).argumentMap)
    {
      var gen := BuildGen(cache, render);
      if gen.Failure? {
        return Failure(gen.error);
      }
      if handler.None? {
        return Failure(NullPointerFailure);
      }
      handler.value.SetRequestGen(gen.value);
      if argumentMap.None? {
        return Failure(NullPointerFailure);
      }
      var keys := GetParameterKeys(argumentMap.value);
      var parameters := GetParameterByKeys(keys, request);
      r := Success(parameters);
    }

    /** `waitRouterServer()`: when no router is registered yet, wait for the
        application to set one (`setMeanwhile`, applied to the registry as
        the starting thread would); fail if there is still none. */
    method WaitRouterServer(ctx: RpcRequestContext, setMeanwhile: Option<RouterServer>) returns (r: Outcome)
      modifies this, ctx
      ensures var seen := if old(ctx.routerServer).Some? then old(ctx.routerServer) else setMeanwhile;
        && ctx.routerServer == seen
        && (r.Done? <==> seen.Some?)
        && (r.Done? ==> routerServer == seen)
        && (r.Fault? ==> r.message == NoRouterFailure && routerServer == old(routerServer))
      ensures ctx.handlers == old(ctx.handlers)
      ensures classInfoBuffer == old(classInfoBuffer) && paramBuffer == old(paramBuffer)
      ensures classInfo == old(classInfo) && params == old(params)
      ensures serviceCode == old(serviceCode) && appName == old(appName)
      ensures serviceInterface == old(serviceInterface) && methodName == old(methodName)
      ensures argumentTree == old(argumentTree) && argumentMap == old(argumentMap) && handler == old(handler)
    {
      if ctx.GetRouterServer().None? {
        ctx.SetRouterServer(setMeanwhile);
      }
      if ctx.GetRouterServer().None? {
        return Fault(NoRouterFailure);
      }
      routerServer := ctx.GetRouterServer();
      r := Done;
    }

    /** `loadHandlerByAppName(appName)`: after the router is ready, reuse
        the handler registered for the application, or create one through
        the router and register it. Looking up a null name throws. */
    method LoadHandlerByAppName(ctx: RpcRequestContext, setMeanwhile: Option<RouterServer>) returns (r: Outcome)
      modifies this, ctx
      ensures r.Done? ==> appName.Some? && handler.Some? && routerServer.Some?
      ensures r.Done? ==> ctx.GetHandler(appName.value) == handler
      ensures r.Done? && appName.value in old(ctx.handlers) ==>
        handler == Some(old(ctx.handlers)[appName.value]) && ctx.handlers == old(ctx.handlers)
      ensures r.Done? && appName.value !in old(ctx.handlers) ==>
        && fresh(handler.value)
        && ctx.handlers == old(ctx.handlers)[appName.value := handler.value]
        && handler.value.appName == appName && handler.value.serviceInterface == serviceInterface
        && handler.value.routerServer == routerServer.value
        && handler.value.requestMap == map[] && handler.value.resultMap == map[]
        && handler.value.requestGen == None && handler.value.released == []
      ensures r.Fault? ==> handler == old(handler) && ctx.handlers == old(ctx.handlers)
      ensures (if old(ctx.routerServer).Some? then old(ctx.routerServer) else setMeanwhile).None? ==> r == Fault(NoRouterFailure)
      ensures var seen := if old(ctx.routerServer).Some? then old(ctx.routerServer) else setMeanwhile;
        && ctx.routerServer == seen
        && (r.Done? <==> seen.Some? && appName.Some?)
        && (seen.Some? ==> routerServer == seen)
        && (seen.None? ==> routerServer == old(routerServer))
        && (seen.Some? && appName.None? ==> r == Fault(NullPointerFailure))
      ensures classInfoBuffer == old(classInfoBuffer) && paramBuffer == old(paramBuffer)
      ensures classInfo == old(classInfo) && params == old(params)
      ensures serviceCode == old(serviceCode) && appName == old(appName)
      ensures serviceInterface == old(serviceInterface) && methodName == old(methodName)
      ensures argumentTree == old(argumentTree) && argumentMap == old(argumentMap)
    {
      r := WaitRouterServer(ctx, setMeanwhile);
      if r.Fault? {
        return;
      }
      if appName.None? {
        return Fault(NullPointerFailure);
      }
      var found := ctx.GetHandler(appName.value);
      if found.Some? {
        handler := found;
      } else {
        var h := new RequestSenderHandler(appName, serviceInterface, routerServer.value);
        ctx.PutHandler(appName.value, h);
        handler := Some(h);
      }
    }
  }

  /** Two filters of the same application share one sender handler: once
      the first has loaded it, the registry has a router and an entry for
      the name, so the second finds that entry and registers nothing new. */
  method LoadHandlerTwice(f1: AbstractFilter, f2: AbstractFilter, ctx: RpcRequestContext,
                          setMeanwhile: Option<RouterServer>)
    returns (first: Outcome, second: Outcome, ghost midHandlers: map<string, RequestSenderHandler>)
    requires f1 != f2 && f2.appName == f1.appName
    modifies f1, f2, ctx
    ensures first.Done? ==>
      && second.Done?
      && f2.handler == f1.handler
      && f2.routerServer == f1.routerServer
      && ctx.handlers == midHandlers
  {
    first := f1.LoadHandlerByAppName(ctx, setMeanwhile);
    midHandlers := ctx.handlers;
    second := f2.LoadHandlerByAppName(ctx, None);
  }

  /** Two calls on an unchanged schema give the same template: a blank
      first template is rebuilt from the same tree by the same `render`, and
      a non-blank one serves the second call from the cache, leaving the
      tree, the argument map and the cache as the first call left them. */
  method BuildGenTwice(f: AbstractFilter, cache: GenCache, render: NodeTree -> Rendered)
    returns (first: Result<string, string>, second: Result<string, string>,
             ghost midTree: Option<NodeTree>, ghost midMap: Option<map<string, string>>, ghost midEntries: map<string, string>)
    requires f.Valid()
    modifies f, cache
    ensures first.Success? ==> second == first
    ensures first.Success? && !IsBlank(first.value) ==>
      && f.serviceInterface.Some? && f.methodName.Some?
      && IsHit(midEntries, GenKey(f.serviceInterface.value, f.methodName.value, f.classInfoBuffer, f.paramBuffer))
      && f.argumentTree == midTree && f.argumentMap == midMap && cache.entries == midEntries
  {
    first := f.BuildGen(cache, render);
    midTree, midMap, midEntries := f.argumentTree, f.argumentMap, cache.entries;
    second := f.BuildGen(cache, render);
  }

  /** A second filter instance with the same schema finds the first one's
      template in the cache, so it never builds its own argument map, and
      its `getResponse` then fails on the null map. */
  method SecondInstanceHitsCache(f1: AbstractFilter, f2: AbstractFilter, cache: GenCache,
                                 render: NodeTree -> Rendered, request: map<string, string>)
    returns (first: Result<string, string>, second: Result<seq<string>, string>)
    requires f1 != f2 && f1.Valid() && f2.Valid()
    requires f2.serviceInterface == f1.serviceInterface && f2.methodName == f1.methodName
    requires f2.classInfoBuffer == f1.classInfoBuffer && f2.paramBuffer == f1.paramBuffer
    requires f2.argumentMap == None
    modifies f1, f2, cache, HandlerSet(f2.handler)
    ensures first.Success? && !IsBlank(first.value) ==> second == Failure(NullPointerFailure)
  {
    first := f1.BuildGen(cache, render);
    second := f2.GetResponseArguments(cache, render, request);
  }
}
