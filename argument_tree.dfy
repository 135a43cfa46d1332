/**
 * The argument tree `buildGen` fills: a head node whose value is the RPC
 * request class name, and the nodes added below it. NodeTree and Node come
 * from a library whose source is not part of this model; `addNode` is taken
 * to insert a node or replace the node that has the same path, and `getNode`
 * to find a node by its path.
 */
module ArgumentTree {
  import opened Wrappers

  /** `needFormat`: Literal when set to false by `addFixedNode`; DefaultFormat
      when left at the library's default. */
  datatype Format = Literal | DefaultFormat

  datatype Node = Node(path: string, value: Option<string>, isArray: bool, format: Format)

  datatype NodeTree = NodeTree(headValue: string, nodes: seq<Node>)

  /** RpcRequest.class.getName(). */
  const RpcRequestClassName: string := "com.bestv.flame.common.dto.RpcRequest"
  const ArgsPath: string := "args"
  const ServiceInterfacePath: string := "serviceInterface"
  const MethodNamePath: string := "methodName"
  const Separator: string := "."

  predicate UniquePaths(nodes: seq<Node>) {
    forall i, j :: 0 <= i < j < |nodes| ==> nodes[i].path != nodes[j].path
  }

  function IndexOf(nodes: seq<Node>, path: string): (r: Option<nat>)
    ensures r.Some? ==> r.value < |nodes| && nodes[r.value].path == path
    ensures r.None? ==> forall i :: 0 <= i < |nodes| ==> nodes[i].path != path
  {
    if nodes == [] then None
    else if nodes[0].path == path then Some(0)
    else match IndexOf(nodes[1..], path)
      case None => None
      case Some(i) => Some(i + 1)
  }

  /** `getNode(path)`. */
  function GetNode(t: NodeTree, path: string): (r: Option<Node>)
    ensures r.Some? ==> r.value.path == path && r.value in t.nodes
    ensures r.None? <==> forall i :: 0 <= i < |t.nodes| ==> t.nodes[i].path != path
  {
    match IndexOf(t.nodes, path)
    case None => None
    case Some(i) => Some(t.nodes[i])
  }

  lemma GetNodeUnique(t: NodeTree, i: nat)
    requires UniquePaths(t.nodes) && i < |t.nodes|
    ensures GetNode(t, t.nodes[i].path) == Some(t.nodes[i])
  {
    var k := IndexOf(t.nodes, t.nodes[i].path);
    assert k.Some?;
  }

  /** `addNode(node)`: insert, or replace the node with the same path. */
  function AddNode(t: NodeTree, n: Node): (r: NodeTree)
    requires UniquePaths(t.nodes)
    ensures UniquePaths(r.nodes)
    ensures r.headValue == t.headValue
    ensures GetNode(r, n.path) == Some(n)
    ensures forall p :: p != n.path ==> GetNode(r, p) == GetNode(t, p)
  {
    match IndexOf(t.nodes, n.path)
    case Some(i) =>
      var r := NodeTree(t.headValue, t.nodes[i := n]);
      GetNodeUnique(r, i);
      assert forall p :: p != n.path ==> GetNode(r, p) == GetNode(t, p) by {
        forall p | p != n.path ensures GetNode(r, p) == GetNode(t, p) {
          SamePathsExcept(t.nodes, r.nodes, i, p);
        }
      }
      r
    case None =>
      var r := NodeTree(t.headValue, t.nodes + [n]);
      GetNodeUnique(r, |t.nodes|);
      assert forall p :: p != n.path ==> GetNode(r, p) == GetNode(t, p) by {
        forall p | p != n.path ensures GetNode(r, p) == GetNode(t, p) {
          IndexOfAppend(t.nodes, n, p);
        }
      }
      r
  }

  lemma {:induction false} SamePathsExcept(a: seq<Node>, b: seq<Node>, k: nat, p: string)
    requires |a| == |b| && k < |a| && a[k].path != p && b[k].path != p
    requires forall i :: 0 <= i < |a| && i != k ==> a[i] == b[i]
    ensures IndexOf(a, p) == IndexOf(b, p)
    ensures IndexOf(a, p).Some? ==> a[IndexOf(a, p).value] == b[IndexOf(b, p).value]
  {
    if k > 0 {
      SamePathsExcept(a[1..], b[1..], k - 1, p);
    } else if |a| > 1 {
      assert a[1..] == b[1..];
    }
  }

  lemma {:induction false} IndexOfAppend(a: seq<Node>, n: Node, p: string)
    requires n.path != p
    ensures IndexOf(a + [n], p) == IndexOf(a, p)
  {
    if a == [] {
      assert IndexOf([n][1..], p) == None;
    } else {
      assert (a + [n])[1..] == a[1..] + [n];
      IndexOfAppend(a[1..], n, p);
    }
  }

  /** The nodes added one after the other, in order. */
  function AddAll(t: NodeTree, ns: seq<Node>): (r: NodeTree)
    requires UniquePaths(t.nodes)
    ensures UniquePaths(r.nodes) && r.headValue == t.headValue
  {
    if ns == [] then t else AddNode(AddAll(t, ns[..|ns| - 1]), ns[|ns| - 1])
  }

  lemma AddAllSnoc(t: NodeTree, ns: seq<Node>, n: Node)
    requires UniquePaths(t.nodes)
    ensures AddAll(t, ns + [n]) == AddNode(AddAll(t, ns), n)
  {
    assert (ns + [n])[..|ns|] == ns;
  }

  /** The last of the nodes with the given path. */
  function LastWithPath(ns: seq<Node>, path: string): Option<Node> {
    if ns == [] then None
    else if ns[|ns| - 1].path == path then Some(ns[|ns| - 1])
    else LastWithPath(ns[..|ns| - 1], path)
  }

  /** After adding a list of nodes, the node at a path is the last one added
      there, or the one that was there before. */
  lemma {:induction false} GetAddAll(t: NodeTree, ns: seq<Node>, path: string)
    requires UniquePaths(t.nodes)
    ensures GetNode(AddAll(t, ns), path)
         == if LastWithPath(ns, path).Some? then LastWithPath(ns, path) else GetNode(t, path)
  {
    if ns != [] {
      GetAddAll(t, ns[..|ns| - 1], path);
    }
  }

  /** `setArray(path)`: mark the node at `path` as an array, creating it first
      when the tree has none. */
  function SetArray(t: NodeTree, path: string): (r: NodeTree)
    requires UniquePaths(t.nodes)
    ensures UniquePaths(r.nodes) && r.headValue == t.headValue
    ensures GetNode(r, path).Some? && GetNode(r, path).value.isArray
    ensures GetNode(t, path).Some? ==> GetNode(r, path) == Some(GetNode(t, path).value.(isArray := true))
    ensures GetNode(t, path).None? ==> GetNode(r, path) == Some(Node(path, None, true, DefaultFormat))
    ensures forall p :: p != path ==> GetNode(r, p) == GetNode(t, p)
  {
    match GetNode(t, path)
    case None => AddNode(t, Node(path, None, true, DefaultFormat))
    case Some(n) => AddNode(t, n.(isArray := true))
  }

  /** `addFixedNode(path, value)`. */
  function FixedNode(path: string, value: string): Node {
    Node(path, Some(value), false, Literal)
  }

  /** The node the parameter loop of `buildGen` adds: its value is the
      inbound parameter key, its `needFormat` the library default. */
  function ParameterNode(path: string, parameterKey: string): Node {
    Node(path, Some(parameterKey), false, DefaultFormat)
  }

  /** "args." + path. */
  function ArgumentPath(path: string): string {
    ArgsPath + Separator + path
  }

  /** A fresh NodeTree with the head value set. */
  function EmptyTree(): (t: NodeTree)
    ensures UniquePaths(t.nodes)
  {
    NodeTree(RpcRequestClassName, [])
  }
}
