/**
 * `RequestSenderHandler`'s bookkeeping of calls in flight. A request is
 * stamped with a trace id and registered before the sender waits; the reader
 * thread files the matching result under the same id; the sender then takes
 * the result out and forgets both. Channels and routers are opaque tokens,
 * thread interleavings are written out as call sequences.
 */
module Sender {
  import opened Wrappers
  import opened Json

  /** A Netty channel. */
  datatype Channel = Channel(id: nat)

  /** The soft-load router server handed to every handler. */
  datatype RouterServer = RouterServer(id: nat)

  /** How a call ended: normally, or by a RuntimeException with a message. */
  datatype Outcome = Done | Fault(message: string)

  const TraceIdKey: string := "traceId"
  const RegisterFailure: string := "rpc请求暂存失败"
  const FillFailure: string := "rpc请求结果暂存失败"
  const NullKeyFailure: string := "NullPointerException"
  const NotStringFailure: string := "ClassCastException"

  /** `connect(host, port)`: an unsuccessful attempt raises a RuntimeException
      naming the host and port; a successful one yields the channel. */
  datatype ConnectFailure = ConnectFailed(host: string, port: int)

  function Connect(host: string, port: int, succeeded: bool, channel: Channel): (r: Result<Channel, ConnectFailure>)
    ensures r.Success? <==> succeeded
    ensures r.Success? ==> r.value == channel
    ensures r.Failure? ==> r.error == ConnectFailed(host, port)
  {
    if succeeded then Success(channel) else Failure(ConnectFailed(host, port))
  }

  /** Every entry is filed under the trace id it carries. */
  predicate Correlated(m: map<string, JObject>) {
    forall id :: id in m ==> Get(m[id], TraceIdKey) == JStr(id)
  }

  class RequestSenderHandler {
    const appName: Option<string>
    const serviceInterface: Option<string>
    const routerServer: RouterServer
    /** rpcRequestMap */
    var requestMap: map<string, JObject>
    /** rpcResultMap */
    var resultMap: map<string, JObject>
    /** The request template with placeholders. */
    var requestGen: Option<string>
    /** Channels whose release completed, oldest first. */
    var released: seq<Channel>

    ghost predicate Valid()
      reads this
    {
      Correlated(requestMap) && Correlated(resultMap)
    }

    /** The handler `loadHandlerByAppName` creates: soft routing through the
        given router, both maps empty. */
    constructor (appName: Option<string>, serviceInterface: Option<string>, routerServer: RouterServer)
      ensures this.appName == appName && this.serviceInterface == serviceInterface
      ensures this.routerServer == routerServer
      ensures requestMap == map[] && resultMap == map[] && requestGen == None && released == []
      ensures Valid()
    {
      this.appName := appName;
      this.serviceInterface := serviceInterface;
      this.routerServer := routerServer;
      requestMap := map[];
      resultMap := map[];
      requestGen := None;
      released := [];
    }

    /** `setRequestGen`. */
    method SetRequestGen(gen: string)
      modifies this
      ensures requestGen == Some(gen)
      ensures requestMap == old(requestMap) && resultMap == old(resultMap) && released == old(released)
    {
      requestGen := Some(gen);
    }

    /** `releaseConnection(channel)`: true exactly when `releaseChannel`
        completes; any exception in it is caught and gives false. */
    method ReleaseConnection(channel: Channel, releaseThrows: bool) returns (ok: bool)
      modifies this
      ensures ok <==> !releaseThrows
      ensures released == if ok then old(released) + [channel] else old(released)
      ensures requestMap == old(requestMap) && resultMap == old(resultMap) && requestGen == old(requestGen)
    {
      if releaseThrows {
        ok := false;
      } else {
        released := released + [channel];
        ok := true;
      }
    }

    /** The first half of `sendRequest`: stamp the request with a fresh
        trace id, write it, then register it with `putIfAbsent`, which fails
        when the id is already registered. The message is written either way. */
    method Register(request: JObject, freshId: string) returns (message: JObject, r: Outcome)
      requires Valid()
      modifies this
      ensures Valid()
      ensures message == request[TraceIdKey := JStr(freshId)]
      ensures r.Fault? <==> freshId in old(requestMap)
      ensures r.Fault? ==> r.message == RegisterFailure && requestMap == old(requestMap)
      ensures r.Done? ==> requestMap == old(requestMap)[freshId := message]
      ensures resultMap == old(resultMap) && requestGen == old(requestGen) && released == old(released)
    {
      message := request[TraceIdKey := JStr(freshId)];
      if freshId in requestMap {
        r := Fault(RegisterFailure);
      } else {
        requestMap := requestMap[freshId := message];
        r := Done;
      }
    }

    /** The second half of `sendRequest`, after `wait(3000)`: when no result
        has been filed the "no reply" exception is thrown and caught at once,
        the connection is released, and the call returns normally. */
    method AwaitResult(traceId: string, channel: Channel, releaseThrows: bool) returns (replied: bool)
      modifies this
      ensures replied <==> traceId in old(resultMap)
      ensures released == if replied || releaseThrows then old(released) else old(released) + [channel]
      ensures requestMap == old(requestMap) && resultMap == old(resultMap) && requestGen == old(requestGen)
    {
      if traceId in resultMap {
        replied := true;
      } else {
        replied := false;
        var _ := ReleaseConnection(channel, releaseThrows);
      }
    }

    /** `sendRequest(rpcRequest, channel)` with nothing filed between the
        registration and the end of the wait. */
    method SendRequest(request: JObject, channel: Channel, freshId: string, releaseThrows: bool)
      returns (message: JObject, r: Outcome)
      requires Valid()
      modifies this
      ensures Valid()
      ensures message == request[TraceIdKey := JStr(freshId)]
      ensures r.Fault? <==> freshId in old(requestMap)
      ensures r.Done? ==> requestMap == old(requestMap)[freshId := message]
      ensures r.Fault? ==> requestMap == old(requestMap) && released == old(released)
      ensures r.Done? ==> released == if freshId in resultMap || releaseThrows then old(released) else old(released) + [channel]
      ensures resultMap == old(resultMap) && requestGen == old(requestGen)
    {
      message, r := Register(request, freshId);
      if r.Done? {
        var _ := AwaitResult(freshId, channel, releaseThrows);
      }
    }

    /** `fillRpcResult(rpcResult)`: file the result under its own trace id
        with `putIfAbsent`. A missing id makes the map throw, a non-string one
        fails the cast, an id already filed fails. `waiterFound` tells whether
        the request is registered, so that its sender is notified; otherwise
        the source polls the request map until it is. */
    method FillRpcResult(result: JObject) returns (r: Outcome, waiterFound: bool)
      requires Valid()
      modifies this
      ensures Valid()
      ensures r.Done? <==> Get(result, TraceIdKey).JStr? && Get(result, TraceIdKey).s !in old(resultMap)
      ensures r.Done? ==> resultMap == old(resultMap)[Get(result, TraceIdKey).s := result]
      ensures r.Done? ==> (waiterFound <==> Get(result, TraceIdKey).s in requestMap)
      ensures r.Fault? ==> resultMap == old(resultMap) && !waiterFound
      ensures r.Fault? && Get(result, TraceIdKey).JStr? ==> r.message == FillFailure
      ensures requestMap == old(requestMap) && requestGen == old(requestGen) && released == old(released)
    {
      waiterFound := false;
      match Get(result, TraceIdKey)
      case JNull =>
        r := Fault(NullKeyFailure);
      case JStr(id) =>
        if id in resultMap {
          r := Fault(FillFailure);
        } else {
          resultMap := resultMap[id := result];
          r := Done;
          waiterFound := id in requestMap;
        }
      case _ =>
        r := Fault(NotStringFailure);
    }

    /** `receiveResponse(rpcRequest)`: the result filed under the request's
        trace id, or null; the id is then removed from both maps. A missing
        id makes the map throw; an id that is not a string finds nothing and
        removes nothing. */
    method ReceiveResponse(request: JObject) returns (result: Option<JObject>, r: Outcome)
      requires Valid()
      modifies this
      ensures Valid()
      ensures r.Fault? <==> Get(request, TraceIdKey).JNull?
      ensures r.Fault? ==> result == None && requestMap == old(requestMap) && resultMap == old(resultMap)
      ensures Get(request, TraceIdKey).JStr? ==>
        var id := Get(request, TraceIdKey).s;
        && result == (if id in old(resultMap) then Some(old(resultMap)[id]) else None)
        && requestMap == old(requestMap) - {id} && resultMap == old(resultMap) - {id}
      ensures !Get(request, TraceIdKey).JStr? ==> result == None && requestMap == old(requestMap) && resultMap == old(resultMap)
      ensures requestGen == old(requestGen) && released == old(released)
    {
      match Get(request, TraceIdKey)
      case JNull =>
        result, r := None, Fault(NullKeyFailure);
      case JStr(id) =>
        result := if id in resultMap then Some(resultMap[id]) else None;
        resultMap := resultMap - {id};
        requestMap := requestMap - {id};
        r := Done;
      case _ =>
        result, r := None, Done;
    }
  }

  lemma RemoveAdded(m: map<string, JObject>, k: string, v: JObject)
    requires k !in m
    ensures m[k := v] - {k} == m
  {
  }

  lemma RemoveAbsent(m: map<string, JObject>, k: string)
    requires k !in m
    ensures m - {k} == m
  {
  }

  /** A call answered in time: the sender registers, the reader files a reply
      carrying the same id, the sender finds it after the wait and takes it,
      and the handler's maps are as before. */
  method AnsweredCall(h: RequestSenderHandler, request: JObject, channel: Channel, freshId: string, reply: JObject)
    returns (got: Option<JObject>)
    requires h.Valid() && freshId !in h.requestMap && freshId !in h.resultMap
    requires Get(reply, TraceIdKey) == JStr(freshId)
    modifies h
    ensures got == Some(reply)
    ensures h.Valid() && h.requestMap == old(h.requestMap) && h.resultMap == old(h.resultMap)
    ensures h.released == old(h.released)
  {
    ghost var requests, results, released := h.requestMap, h.resultMap, h.released;
    var message, r := h.Register(request, freshId);
    assert h.requestMap == requests[freshId := message];
    assert h.resultMap == results && h.released == released;
    var filled, waiterFound := h.FillRpcResult(reply);
    assert h.requestMap == requests[freshId := message];
    assert h.resultMap == results[freshId := reply] && h.released == released;
    var replied := h.AwaitResult(freshId, channel, false);
    assert h.requestMap == requests[freshId := message];
    assert h.resultMap == results[freshId := reply] && h.released == released;
    assert Get(message, TraceIdKey) == JStr(freshId);
    got, r := h.ReceiveResponse(message);
    assert h.requestMap == requests[freshId := message] - {freshId};
    assert h.resultMap == results[freshId := reply] - {freshId};
    RemoveAdded(requests, freshId, message);
    RemoveAdded(results, freshId, reply);
  }

  /** A call that times out: the sender releases the connection, returns
      normally and then receives null; its request is forgotten. */
  method TimedOutCall(h: RequestSenderHandler, request: JObject, channel: Channel, freshId: string)
    returns (got: Option<JObject>, r: Outcome)
    requires h.Valid() && freshId !in h.requestMap && freshId !in h.resultMap
    modifies h
    ensures r == Done && got == None
    ensures h.Valid() && h.requestMap == old(h.requestMap) && h.resultMap == old(h.resultMap)
    ensures h.released == old(h.released) + [channel]
  {
    ghost var requests, results, released := h.requestMap, h.resultMap, h.released;
    var message;
    message, r := h.SendRequest(request, channel, freshId, false);
    assert r == Done;
    assert h.requestMap == requests[freshId := message];
    assert h.resultMap == results && h.released == released + [channel];
    assert Get(message, TraceIdKey) == JStr(freshId);
    got, r := h.ReceiveResponse(message);
    assert h.requestMap == requests[freshId := message] - {freshId};
    assert h.resultMap == results - {freshId};
    RemoveAdded(requests, freshId, message);
    RemoveAbsent(results, freshId);
  }
}
