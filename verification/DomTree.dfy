/** The document tree as its readers see it: nodes with an identity and children. */
module DomTree {
  type NodeId(==, !new)

  datatype Node = Node(id: NodeId, children: seq<Node>)

  /** A path names a node by the child taken at each level. */
  predicate IsPath(node: Node, path: seq<nat>)
    decreases |path|
  {
    path == [] || (path[0] < |node.children| && IsPath(node.children[path[0]], path[1..]))
  }

  function At(node: Node, path: seq<nat>): Node
    requires IsPath(node, path)
    decreases |path|
  {
    if path == [] then node else At(node.children[path[0]], path[1..])
  }

  lemma {:induction false} PathPrefix(node: Node, path: seq<nat>, k: nat)
    requires IsPath(node, path) && k <= |path|
    ensures IsPath(node, path[..k])
    decreases k
  {
    if k > 0 {
      PathPrefix(node.children[path[0]], path[1..], k - 1);
      assert path[..k][1..] == path[1..][..k - 1];
    }
  }

  /** A non-empty path is a path to a parent and a child of it. */
  lemma {:induction false} PathSplits(node: Node, path: seq<nat>)
    requires IsPath(node, path) && path != []
    ensures var last := |path| - 1;
            && path == path[..last] + [path[last]]
            && IsPath(node, path[..last])
            && path[last] < |At(node, path[..last]).children|
    decreases |path|
  {
    if |path| > 1 {
      PathSplits(node.children[path[0]], path[1..]);
      assert path[1..][..|path| - 2] == path[..|path| - 1][1..];
    }
  }

  /** The identities in a subtree. */
  function Ids(node: Node): set<NodeId>
    decreases node
  {
    {node.id} + set c, id | 0 <= c < |node.children| && id in Ids(node.children[c]) :: id
  }

  /** No identity occurs twice in a subtree. */
  ghost predicate UniqueIds(node: Node)
    decreases node
  {
    && (forall c | 0 <= c < |node.children| :: UniqueIds(node.children[c]) && node.id !in Ids(node.children[c]))
    && (forall c, d | 0 <= c < d < |node.children| :: Ids(node.children[c]) !! Ids(node.children[d]))
  }
}
