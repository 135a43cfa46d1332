/**
 * How `getResponse` turns the argument map and the HTTP request into the
 * argument array of the RPC call: the map's values in the order of its sorted
 * keys, then each looked up in the request and quoted.
 */
module Parameters {
  import opened Wrappers
  import opened Strings

  /** `getParameterKeys(keyMap)`: the values in ascending order of their
      keys. The key list is sorted with `Collections.sort`, which is not part
      of this model; `SortedKeys` states its result. */
  method GetParameterKeys(keyMap: map<string, string>) returns (keys: seq<string>)
    ensures |keys| == |keyMap|
    ensures forall i :: 0 <= i < |keys| ==> keys[i] == keyMap[SortedKeys(keyMap.Keys)[i]]
  {
    var keySize := |keyMap|;
    var a := new string[keySize];
    var keyList := SortedKeys(keyMap.Keys);
    assert |keyMap.Keys| == keySize == |keyList|;
    for i := 0 to keySize
      invariant forall j :: 0 <= j < i ==> a[j] == keyMap[keyList[j]]
    {
      assert keyList[i] in keyList;
      a[i] := keyMap[keyList[i]];
    }
    keys := a[..];
  }

  /** One argument: a present value between double quotes, with no
      escaping; an absent one the word null. */
  function RenderParameter(v: Option<string>): (r: string)
    ensures r == "null" <==> v.None?
    ensures v.Some? ==> |r| == |v.value| + 2 && r[0] == '"' && r[|r| - 1] == '"' && r[1..|r| - 1] == v.value
  {
    match v
    case Some(s) =>
      var r := "\"" + s + "\"";
      assert r[0] != "null"[0];
      r
    case None => "null"
  }

  /** Reading an argument back. */
  function UnrenderParameter(r: string): Option<Option<string>> {
    if r == "null" then Some(None)
    else if |r| >= 2 && r[0] == '"' && r[|r| - 1] == '"' then Some(Some(r[1..|r| - 1]))
    else None
  }

  lemma UnrenderRender(v: Option<string>)
    ensures UnrenderParameter(RenderParameter(v)) == Some(v)
  {
    if v.Some? {
      var r := RenderParameter(v);
      assert r[0] == '"' && r[|r| - 1] == '"' && r[1..|r| - 1] == v.value;
      assert r != "null" by { assert r[0] != "null"[0]; }
    }
  }

  /** Distinct inputs, present or not, give distinct arguments. */
  lemma RenderParameterInjective(v: Option<string>, w: Option<string>)
    requires RenderParameter(v) == RenderParameter(w)
    ensures v == w
  {
    UnrenderRender(v);
    UnrenderRender(w);
  }

  /** `getParameter(paramKey)`: the request parameter, null when absent. */
  function GetParameter(request: map<string, string>, paramKey: string): (r: Option<string>)
    ensures r.Some? <==> paramKey in request
    ensures r.Some? ==> r.value == request[paramKey]
  {
    if paramKey in request then Some(request[paramKey]) else None
  }

  /** `getParameterByKeys(keys)`: one argument per key, in order. */
  method GetParameterByKeys(keys: seq<string>, request: map<string, string>) returns (parameters: seq<string>)
    ensures |parameters| == |keys|
    ensures forall i :: 0 <= i < |keys| ==> UnrenderParameter(parameters[i]) == Some(GetParameter(request, keys[i]))
  {
    var a := new string[|keys|];
    for i := 0 to |keys|
      invariant forall j :: 0 <= j < i ==> a[j] == RenderParameter(GetParameter(request, keys[j]))
    {
      var p := GetParameter(request, keys[i]);
      if p.Some? {
        a[i] := "\"" + p.value + "\"";
      } else {
        a[i] := "null";
      }
    }
    parameters := a[..];
    forall i | 0 <= i < |keys|
      ensures UnrenderParameter(parameters[i]) == Some(GetParameter(request, keys[i]))
    {
      UnrenderRender(GetParameter(request, keys[i]));
    }
  }
}
