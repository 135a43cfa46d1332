/**
 * What a cache miss in `buildGen` builds: the argument tree for the
 * recorded schema, before it is rendered to the request template.
 */
module Template {
  import opened Wrappers
  import opened Strings
  import opened Schema
  import opened ArgumentTree

  /** The node a record adds under `args`: a class-info record a fixed node
      whose value is the class name, a parameter link a node whose value is
      the inbound parameter key. */
  function RecordNode(b: Binding, kind: Format): Node {
    Node(ArgumentPath(b.path), Some(b.value), false, kind)
  }

  function RecordNodes(bs: seq<Binding>, kind: Format): (r: seq<Node>)
    ensures |r| == |bs|
  {
    seq(|bs|, i requires 0 <= i < |bs| => RecordNode(bs[i], kind))
  }

  /** The tree before any record: head value, `args` as an array, and the
      fixed interface and method name nodes. */
  function BaseTree(serviceInterface: string, methodName: string): (t: NodeTree)
    ensures UniquePaths(t.nodes)
  {
    var t0 := SetArray(EmptyTree(), ArgsPath);
    var t1 := AddNode(t0, FixedNode(ServiceInterfacePath, serviceInterface));
    AddNode(t1, FixedNode(MethodNamePath, methodName))
  }

  /** The tree built on a miss, and whether every record could be read;
      when a class-info record cannot, the parameter records are not read. */
  datatype Compiled = Compiled(tree: NodeTree, complete: bool)

  function CompileTree(serviceInterface: string, methodName: string,
                       classInfoBuffer: string, paramBuffer: string): (c: Compiled)
    ensures UniquePaths(c.tree.nodes)
  {
    var classes := ParseBuffer(classInfoBuffer);
    var t := AddAll(BaseTree(serviceInterface, methodName), RecordNodes(classes.bindings, Literal));
    if !classes.complete then Compiled(t, false)
    else
      var params := ParseBuffer(paramBuffer);
      Compiled(AddAll(t, RecordNodes(params.bindings, DefaultFormat)), params.complete)
  }

  /** The last record whose node would sit at `path`. */
  function LastRecord(bs: seq<Binding>, path: string): Option<Binding> {
    if bs == [] then None
    else if ArgumentPath(bs[|bs| - 1].path) == path then Some(bs[|bs| - 1])
    else LastRecord(bs[..|bs| - 1], path)
  }

  /** The node a reader of the schema expects at each path: the three fixed
      nodes; under `args`, the last parameter link for that path, else the
      last class-info record for it; nothing elsewhere. */
  function ExpectedNode(serviceInterface: string, methodName: string,
                        classes: seq<Binding>, params: seq<Binding>, path: string): Option<Node> {
    if path == ArgsPath then Some(Node(ArgsPath, None, true, DefaultFormat))
    else if path == ServiceInterfacePath then Some(FixedNode(ServiceInterfacePath, serviceInterface))
    else if path == MethodNamePath then Some(FixedNode(MethodNamePath, methodName))
    else match LastRecord(params, path)
      case Some(b) => Some(ParameterNode(path, b.value))
      case None =>
        match LastRecord(classes, path)
        case Some(b) => Some(FixedNode(path, b.value))
        case None => None
  }

  lemma ArgumentPathNotFixed(p: string)
    ensures ArgumentPath(p) != ArgsPath
    ensures ArgumentPath(p) != ServiceInterfacePath && ArgumentPath(p) != MethodNamePath
  {
    assert ArgumentPath(p)[0] == 'a';
    assert |ArgumentPath(p)| > |ArgsPath|;
  }

  lemma {:induction false} RecordNodesLast(bs: seq<Binding>, kind: Format, path: string)
    ensures LastWithPath(RecordNodes(bs, kind), path)
         == if LastRecord(bs, path).Some? then Some(RecordNode(LastRecord(bs, path).value, kind)) else None
  {
    if bs != [] {
      var ns := RecordNodes(bs, kind);
      assert ns[..|ns| - 1] == RecordNodes(bs[..|bs| - 1], kind);
      RecordNodesLast(bs[..|bs| - 1], kind, path);
    }
  }

  lemma BaseTreeNodes(serviceInterface: string, methodName: string, path: string)
    ensures GetNode(BaseTree(serviceInterface, methodName), path)
         == if path in {ArgsPath, ServiceInterfacePath, MethodNamePath}
            then ExpectedNode(serviceInterface, methodName, [], [], path) else None
  {
    assert GetNode(EmptyTree(), ArgsPath) == None;
    assert GetNode(EmptyTree(), path) == None;
  }

  /** On a well-formed schema the miss reads every record, and the tree has
      exactly the nodes the schema calls for. */
  lemma CompileTreeOfSchema(serviceInterface: string, methodName: string,
                            classes: seq<Binding>, params: seq<Binding>, path: string)
    requires forall b :: b in classes ==> WellFormed(b)
    requires forall b :: b in params ==> WellFormed(b)
    ensures var c := CompileTree(serviceInterface, methodName, Buffer(classes), Buffer(params));
      && c.complete
      && c.tree.headValue == RpcRequestClassName
      && GetNode(c.tree, path) == ExpectedNode(serviceInterface, methodName, classes, params, path)
  {
    RoundTrip(classes);
    RoundTrip(params);
    var base := BaseTree(serviceInterface, methodName);
    var t := AddAll(base, RecordNodes(classes, Literal));
    GetAddAll(base, RecordNodes(classes, Literal), path);
    GetAddAll(t, RecordNodes(params, DefaultFormat), path);
    RecordNodesLast(classes, Literal, path);
    RecordNodesLast(params, DefaultFormat, path);
    BaseTreeNodes(serviceInterface, methodName, path);
    if path in {ArgsPath, ServiceInterfacePath, MethodNamePath} {
      NoRecordAtFixedPath(classes, path);
      NoRecordAtFixedPath(params, path);
    }
  }

  lemma {:induction false} NoRecordAtFixedPath(bs: seq<Binding>, path: string)
    requires path in {ArgsPath, ServiceInterfacePath, MethodNamePath}
    ensures LastRecord(bs, path) == None
  {
    if bs != [] {
      ArgumentPathNotFixed(bs[|bs| - 1].path);
      NoRecordAtFixedPath(bs[..|bs| - 1], path);
    }
  }

  /** One step of the record loop of `buildGen`, stated on the fragments
      left to read. */
  lemma ParseFragmentsStep(fragments: seq<string>, i: nat)
    requires i < |fragments|
    ensures var rest := ParseFragments(fragments[i + 1..]);
      ParseFragments(fragments[i..])
        == if IsBlank(fragments[i]) then rest
           else if ParseFragment(fragments[i]).None? then Parsed([], false)
           else Parsed([ParseFragment(fragments[i]).value] + rest.bindings, rest.complete)
  {
    assert fragments[i..][0] == fragments[i] && fragments[i..][1..] == fragments[i + 1..];
  }

  lemma AddRecordStep(t: NodeTree, done: seq<Binding>, b: Binding, kind: Format)
    requires UniquePaths(t.nodes)
    ensures AddAll(t, RecordNodes(done + [b], kind)) == AddNode(AddAll(t, RecordNodes(done, kind)), RecordNode(b, kind))
  {
    assert RecordNodes(done + [b], kind) == RecordNodes(done, kind) + [RecordNode(b, kind)];
    AddAllSnoc(t, RecordNodes(done, kind), RecordNode(b, kind));
  }
}
