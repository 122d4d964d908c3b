/** The accessibility tree: node identifiers that carry the document's generation, and the update built from them. */
module Accessibility {
  import opened Wrappers
  import opened DomTree
  import opened Selections

  // ---- Identifiers ----

  /** The generation in the high half, the node's number plus one in the low half. */
  function AccessId(epoch: bv32, number: bv32): bv64 {
    ((epoch as bv64) << 32) | (number as bv64 + 1)
  }

  /** The node an identifier names, if it belongs to this generation. */
  function ResolveEgoId(epoch: bv32, nodes: map<bv32, NodeId>, id: bv64): Option<NodeId> {
    if (id >> 32) as bv32 != epoch then None else
    var low := id & 0xFFFF_FFFF;
    if low == 0 then None else
    var number := (low - 1) as bv32;
    if number in nodes then Some(nodes[number]) else None
  }

  const LAST_NUMBER: bv32 := 0xFFFF_FFFF

  lemma AccessIdParts(epoch: bv32, number: bv32)
    requires number != LAST_NUMBER
    ensures (AccessId(epoch, number) >> 32) as bv32 == epoch
    ensures AccessId(epoch, number) & 0xFFFF_FFFF != 0
    ensures ((AccessId(epoch, number) & 0xFFFF_FFFF) - 1) as bv32 == number
  {
  }

  /** The last number's identifier overflows into the generation, whose lowest bit it sets. */
  lemma LastNumberParts(epoch: bv32)
    ensures AccessId(epoch, LAST_NUMBER) == OfGeneration(epoch | 1)
    ensures GenerationOf(AccessId(epoch, LAST_NUMBER)) == epoch | 1
  {
  }

  function OfGeneration(epoch: bv32): bv64 {
    (epoch as bv64) << 32
  }

  function GenerationOf(id: bv64): bv32 {
    (id >> 32) as bv32
  }

  /** So generations that differ in their lowest bit at most share it. */
  lemma LastNumberCollides(epoch: bv32, otherEpoch: bv32)
    ensures AccessId(epoch, LAST_NUMBER) == AccessId(otherEpoch, LAST_NUMBER) <==> epoch | 1 == otherEpoch | 1
  {
    LastNumberParts(epoch);
    LastNumberParts(otherEpoch);
    var a, b := AccessId(epoch, LAST_NUMBER), AccessId(otherEpoch, LAST_NUMBER);
    if a == b {
      assert GenerationOf(a) == GenerationOf(b);
    }
    if epoch | 1 == otherEpoch | 1 {
      assert OfGeneration(epoch | 1) == OfGeneration(otherEpoch | 1);
    }
  }

  /** It has an empty low half, which no other number's identifier has. */
  lemma LastNumberDiffers(epoch: bv32, otherEpoch: bv32, number: bv32)
    requires number != LAST_NUMBER
    ensures AccessId(epoch, LAST_NUMBER) != AccessId(otherEpoch, number)
  {
    assert AccessId(epoch, LAST_NUMBER) & 0xFFFF_FFFF == 0;
    AccessIdParts(otherEpoch, number);
  }

  /**
   * When identifiers are equal: for the same number, in the same generation or, if the number is
   * the very last, in one that differs in its lowest bit at most.
   */
  lemma AccessIdsDiffer(epoch: bv32, number: bv32, otherEpoch: bv32, otherNumber: bv32)
    ensures AccessId(epoch, number) == AccessId(otherEpoch, otherNumber) <==>
      number == otherNumber && (epoch == otherEpoch || (number == LAST_NUMBER && epoch | 1 == otherEpoch | 1))
  {
    if number == LAST_NUMBER && otherNumber == LAST_NUMBER {
      LastNumberCollides(epoch, otherEpoch);
    } else if number == LAST_NUMBER {
      LastNumberDiffers(epoch, otherEpoch, otherNumber);
    } else if otherNumber == LAST_NUMBER {
      LastNumberDiffers(otherEpoch, epoch, number);
    } else {
      AccessIdParts(epoch, number);
      AccessIdParts(otherEpoch, otherNumber);
    }
  }

  /**
   * Resolving undoes numbering within one generation and nowhere else: an identifier leads back to
   * its node exactly when the generation is the same and the number is not the very last, whose
   * identifier overflows into the generation.
   */
  lemma ResolvesOnlyItsOwn(epoch: bv32, number: bv32, current: bv32, nodes: map<bv32, NodeId>)
    requires number in nodes
    ensures ResolveEgoId(current, nodes, AccessId(epoch, number)).Some? <==> current == epoch && number != LAST_NUMBER
    ensures current == epoch && number != LAST_NUMBER ==>
      ResolveEgoId(current, nodes, AccessId(epoch, number)) == Some(nodes[number])
  {
    if number == LAST_NUMBER {
      assert AccessId(epoch, LAST_NUMBER) & 0xFFFF_FFFF == 0;
    } else {
      AccessIdParts(epoch, number);
    }
  }

  /** And nothing else resolves: an identifier that leads to a node is one that numbering gave it. */
  lemma OnlyIdentifiersResolve(epoch: bv32, nodes: map<bv32, NodeId>, id: bv64) returns (number: bv32)
    requires ResolveEgoId(epoch, nodes, id).Some?
    ensures number in nodes && number != LAST_NUMBER && id == AccessId(epoch, number)
    ensures ResolveEgoId(epoch, nodes, id) == Some(nodes[number])
  {
    number := ((id & 0xFFFF_FFFF) - 1) as bv32;
    Reassembled(epoch, id);
  }

  lemma Reassembled(epoch: bv32, id: bv64)
    requires (id >> 32) as bv32 == epoch && id & 0xFFFF_FFFF != 0
    ensures var number := ((id & 0xFFFF_FFFF) - 1) as bv32; number != LAST_NUMBER && id == AccessId(epoch, number)
  {
  }

  // ---- The update ----

  type Numbering = map<NodeId, bv32>

  /** One entry of an update; `owner` is a history value, the node it was made for. */
  datatype AccessNode = AccessNode(owner: NodeId, id: bv64, children: seq<bv64>)

  /** The identifiers of the numbered ones among some nodes. */
  function ChildIds(epoch: bv32, numbers: Numbering, nodes: seq<Node>): seq<bv64> {
    if nodes == [] then [] else
    var last := nodes[|nodes| - 1];
    ChildIds(epoch, numbers, nodes[..|nodes| - 1]) +
    if last.id in numbers then [AccessId(epoch, numbers[last.id])] else []
  }

  /** The entries of a subtree: children before their parent, nothing below an unnumbered node. */
  function Entries(epoch: bv32, numbers: Numbering, node: Node): seq<AccessNode>
    decreases node, 1
  {
    if node.id !in numbers then [] else
    AllEntries(epoch, numbers, node.children) +
    [AccessNode(node.id, AccessId(epoch, numbers[node.id]), ChildIds(epoch, numbers, node.children))]
  }

  function AllEntries(epoch: bv32, numbers: Numbering, nodes: seq<Node>): seq<AccessNode>
    decreases nodes, 0
  {
    if nodes == [] then [] else
    AllEntries(epoch, numbers, nodes[..|nodes| - 1]) + Entries(epoch, numbers, nodes[|nodes| - 1])
  }

  /** The recursive builder, which appends to `out`. */
  method BuildNode(epoch: bv32, node: Node, numbers: Numbering, before: seq<AccessNode>) returns (out: seq<AccessNode>)
    ensures out == before + Entries(epoch, numbers, node)
    decreases node
  {
    out := before;
    if node.id !in numbers {
      return;
    }
    var childIds := [];
    for c := 0 to |node.children|
      invariant out == before + AllEntries(epoch, numbers, node.children[..c])
      invariant childIds == ChildIds(epoch, numbers, node.children[..c])
    {
      var child := node.children[c];
      assert node.children[..c + 1][..c] == node.children[..c];
      out := BuildNode(epoch, child, numbers, out);
      if child.id in numbers {
        childIds := childIds + [AccessId(epoch, numbers[child.id])];
      }
    }
    assert node.children[..|node.children|] == node.children;
    out := out + [AccessNode(node.id, AccessId(epoch, numbers[node.id]), childIds)];
  }

  datatype TreeUpdate = TreeUpdate(nodes: seq<AccessNode>, root: bv64, focus: bv64)

  method BuildTree(epoch: bv32, dom: Node, numbers: Numbering, focused: Option<NodeId>) returns (update: TreeUpdate)
    ensures update.nodes == Entries(epoch, numbers, dom)
    ensures update.root == RootId(epoch, numbers, dom)
    ensures update.focus == FocusId(epoch, numbers, dom, focused)
    ensures dom.id in numbers ==> update.root == AccessId(epoch, numbers[dom.id])
    ensures dom.id !in numbers ==> update.root == 1
    ensures focused.Some? && focused.value in numbers ==> update.focus == AccessId(epoch, numbers[focused.value])
    ensures focused.None? || focused.value !in numbers ==> update.focus == update.root
  {
    var root := if dom.id in numbers then AccessId(epoch, numbers[dom.id]) else 1;
    var nodes := BuildNode(epoch, dom, numbers, []);
    var focus := if focused.Some? && focused.value in numbers then AccessId(epoch, numbers[focused.value]) else root;
    update := TreeUpdate(nodes, root, focus);
  }

  // ---- Which nodes are listed ----

  /** A path along which every node is numbered. */
  ghost predicate Numbered(numbers: Numbering, node: Node, path: seq<nat>)
    requires IsPath(node, path)
    decreases |path|
  {
    node.id in numbers && (path == [] || Numbered(numbers, node.children[path[0]], path[1..]))
  }

  /** A node is exposed when it and all its ancestors are numbered. */
  ghost predicate Exposed(numbers: Numbering, node: Node, id: NodeId) {
    exists path :: IsPath(node, path) && At(node, path).id == id && Numbered(numbers, node, path)
  }

  ghost predicate Lists(entries: seq<AccessNode>, id: NodeId) {
    exists k :: 0 <= k < |entries| && entries[k].owner == id
  }

  lemma {:induction false} EntriesOfChild(epoch: bv32, numbers: Numbering, nodes: seq<Node>, c: nat)
    returns (from: nat)
    requires c < |nodes|
    ensures from + |Entries(epoch, numbers, nodes[c])| <= |AllEntries(epoch, numbers, nodes)|
    ensures AllEntries(epoch, numbers, nodes)[from..from + |Entries(epoch, numbers, nodes[c])|] ==
      Entries(epoch, numbers, nodes[c])
  {
    var last := |nodes| - 1;
    var init := AllEntries(epoch, numbers, nodes[..last]);
    if c == last {
      from := |init|;
    } else {
      from := EntriesOfChild(epoch, numbers, nodes[..last], c);
      assert nodes[..last][c] == nodes[c];
      var part := Entries(epoch, numbers, nodes[c]);
      assert AllEntries(epoch, numbers, nodes)[from..from + |part|] == init[from..from + |part|];
    }
  }

  lemma {:induction false} EntryOfSome(
    epoch: bv32, numbers: Numbering, nodes: seq<Node>, k: nat) returns (c: nat, j: nat)
    requires k < |AllEntries(epoch, numbers, nodes)|
    ensures c < |nodes| && j < |Entries(epoch, numbers, nodes[c])|
    ensures AllEntries(epoch, numbers, nodes)[k] == Entries(epoch, numbers, nodes[c])[j]
  {
    var last := |nodes| - 1;
    var init := AllEntries(epoch, numbers, nodes[..last]);
    if k < |init| {
      c, j := EntryOfSome(epoch, numbers, nodes[..last], k);
      assert nodes[..last][c] == nodes[c];
    } else {
      c, j := last, k - |init|;
    }
  }

  lemma {:induction false} ListedIsExposed(epoch: bv32, numbers: Numbering, node: Node, k: nat) returns (path: seq<nat>)
    requires k < |Entries(epoch, numbers, node)|
    ensures IsPath(node, path) && Numbered(numbers, node, path)
    ensures var entry := Entries(epoch, numbers, node)[k];
            && At(node, path).id == entry.owner && entry.owner in numbers
            && entry.id == AccessId(epoch, numbers[entry.owner])
            && entry.children == ChildIds(epoch, numbers, At(node, path).children)
    decreases node
  {
    var below := AllEntries(epoch, numbers, node.children);
    if k < |below| {
      var c, j := EntryOfSome(epoch, numbers, node.children, k);
      var rest := ListedIsExposed(epoch, numbers, node.children[c], j);
      path := [c] + rest;
      assert path[1..] == rest;
    } else {
      path := [];
    }
  }

  lemma {:induction false} ExposedIsListed(epoch: bv32, numbers: Numbering, node: Node, path: seq<nat>) returns (k: nat)
    requires IsPath(node, path) && Numbered(numbers, node, path)
    ensures k < |Entries(epoch, numbers, node)| && Entries(epoch, numbers, node)[k].owner == At(node, path).id
    decreases |path|
  {
    var below := AllEntries(epoch, numbers, node.children);
    if path == [] {
      k := |below|;
    } else {
      var j := ExposedIsListed(epoch, numbers, node.children[path[0]], path[1..]);
      var from := EntriesOfChild(epoch, numbers, node.children, path[0]);
      k := from + j;
      assert below[k] == below[from..from + |Entries(epoch, numbers, node.children[path[0]])|][j];
    }
  }

  /** The update lists exactly the nodes whose whole ancestor chain is numbered. */
  lemma ListsExactlyTheExposed(epoch: bv32, numbers: Numbering, dom: Node, id: NodeId)
    ensures Lists(Entries(epoch, numbers, dom), id) <==> Exposed(numbers, dom, id)
  {
    var entries := Entries(epoch, numbers, dom);
    if k :| 0 <= k < |entries| && entries[k].owner == id {
      var path := ListedIsExposed(epoch, numbers, dom, k);
    }
    if path :| IsPath(dom, path) && At(dom, path).id == id && Numbered(numbers, dom, path) {
      var k := ExposedIsListed(epoch, numbers, dom, path);
    }
  }

  /**
   * The identifier an update gives the focus: the focused node's, or that of the root, which is 1
   * for an unnumbered one.
   */
  function RootId(epoch: bv32, numbers: Numbering, dom: Node): bv64 {
    if dom.id in numbers then AccessId(epoch, numbers[dom.id]) else 1
  }

  function FocusId(epoch: bv32, numbers: Numbering, dom: Node, focused: Option<NodeId>): bv64 {
    if focused.Some? && focused.value in numbers then AccessId(epoch, numbers[focused.value])
        else RootId(epoch, numbers, dom)
  }

  ghost predicate Declared(entries: seq<AccessNode>, id: bv64) {
    exists j :: 0 <= j < |entries| && entries[j].id == id
  }

  /**
   * The focus of an update is one of its entries exactly when the focused node is exposed or, if it
   * is not numbered or there is none, the root is: a numbered node below an unnumbered one is named
   * by the focus and by no entry.
   */
  lemma FocusIsDeclared(epoch: bv32, numbers: Numbering, dom: Node, focused: Option<NodeId>)
    requires Injective(numbers)
    ensures Declared(Entries(epoch, numbers, dom), FocusId(epoch, numbers, dom, focused)) <==>
      if focused.Some? && focused.value in numbers then Exposed(numbers, dom, focused.value) else dom.id in numbers
  {
    var entries := Entries(epoch, numbers, dom);
    if focused.Some? && focused.value in numbers {
      NodeIsDeclared(epoch, numbers, dom, focused.value);
    } else if dom.id in numbers {
      assert entries[|entries| - 1].id == RootId(epoch, numbers, dom);
    }
  }

  /** A numbered node's identifier is that of an entry exactly when the node is exposed. */
  lemma NodeIsDeclared(epoch: bv32, numbers: Numbering, dom: Node, id: NodeId)
    requires Injective(numbers) && id in numbers
    ensures Declared(Entries(epoch, numbers, dom), AccessId(epoch, numbers[id])) <==> Exposed(numbers, dom, id)
  {
    var entries := Entries(epoch, numbers, dom);
    ListsExactlyTheExposed(epoch, numbers, dom, id);
    if j :| 0 <= j < |entries| && entries[j].id == AccessId(epoch, numbers[id]) {
      var path := ListedIsExposed(epoch, numbers, dom, j);
      AccessIdsDiffer(epoch, numbers[entries[j].owner], epoch, numbers[id]);
    }
    if j :| 0 <= j < |entries| && entries[j].owner == id {
      var path := ListedIsExposed(epoch, numbers, dom, j);
    }
  }

  // ---- Each once ----

  ghost predicate Distinct(entries: seq<AccessNode>) {
    forall i, j | 0 <= i < j < |entries| :: entries[i].owner != entries[j].owner
  }

  lemma {:induction false} IdAtPath(node: Node, path: seq<nat>)
    requires IsPath(node, path)
    ensures At(node, path).id in Ids(node)
    decreases |path|
  {
    if path != [] {
      IdAtPath(node.children[path[0]], path[1..]);
    }
  }

  lemma OwnersAreWithin(epoch: bv32, numbers: Numbering, node: Node)
    ensures forall k | 0 <= k < |Entries(epoch, numbers, node)| :: Entries(epoch, numbers, node)[k].owner in Ids(node)
  {
    forall k | 0 <= k < |Entries(epoch, numbers, node)| ensures Entries(epoch, numbers, node)[k].owner in Ids(node) {
      var path := ListedIsExposed(epoch, numbers, node, k);
      IdAtPath(node, path);
    }
  }

  lemma {:induction false} EachOnce(epoch: bv32, numbers: Numbering, node: Node)
    requires UniqueIds(node)
    ensures Distinct(Entries(epoch, numbers, node))
    decreases node, 1
  {
    if node.id in numbers {
      AllOnce(epoch, numbers, node.children);
      var below := AllEntries(epoch, numbers, node.children);
      forall k | 0 <= k < |below| ensures below[k].owner != node.id {
        var c, j := EntryOfSome(epoch, numbers, node.children, k);
        OwnersAreWithin(epoch, numbers, node.children[c]);
      }
    }
  }

  lemma {:induction false} AllOnce(epoch: bv32, numbers: Numbering, nodes: seq<Node>)
    requires forall c | 0 <= c < |nodes| :: UniqueIds(nodes[c])
    requires forall c, d | 0 <= c < d < |nodes| :: Ids(nodes[c]) !! Ids(nodes[d])
    ensures Distinct(AllEntries(epoch, numbers, nodes))
    decreases nodes, 0
  {
    if nodes != [] {
      var last := |nodes| - 1;
      var init := AllEntries(epoch, numbers, nodes[..last]);
      var tail := Entries(epoch, numbers, nodes[last]);
      AllOnce(epoch, numbers, nodes[..last]);
      EachOnce(epoch, numbers, nodes[last]);
      OwnersAreWithin(epoch, numbers, nodes[last]);
      forall i, j | 0 <= i < |init| && 0 <= j < |tail| ensures init[i].owner != tail[j].owner {
        var c, k := EntryOfSome(epoch, numbers, nodes[..last], i);
        OwnersAreWithin(epoch, numbers, nodes[c]);
      }
    }
  }

  // ---- Closed and connected ----

  /** Every reference is to an entry further up the list. */
  ghost predicate ReferencesDeclared(entries: seq<AccessNode>) {
    forall i, r | 0 <= i < |entries| && r in entries[i].children :: Declared(entries[..i], r)
  }

  lemma DeclaredFurtherOn(before: seq<AccessNode>, entries: seq<AccessNode>, after: seq<AccessNode>, id: bv64)
    requires Declared(entries, id)
    ensures Declared(before + entries + after, id)
  {
    var j :| 0 <= j < |entries| && entries[j].id == id;
    assert (before + entries + after)[|before| + j] == entries[j];
  }

  lemma DeclarationsJoin(first: seq<AccessNode>, second: seq<AccessNode>)
    requires ReferencesDeclared(first) && ReferencesDeclared(second)
    ensures ReferencesDeclared(first + second)
  {
    var both := first + second;
    forall i, r | 0 <= i < |both| && r in both[i].children ensures Declared(both[..i], r) {
      if i < |first| {
        assert both[..i] == first[..i];
      } else {
        var k := i - |first|;
        DeclaredFurtherOn(first, second[..k], [], r);
        assert both[..i] == first + second[..k] + [];
      }
    }
  }

  lemma {:induction false} ChildrenAreDeclared(epoch: bv32, numbers: Numbering, nodes: seq<Node>, r: bv64)
    requires r in ChildIds(epoch, numbers, nodes)
    ensures Declared(AllEntries(epoch, numbers, nodes), r)
  {
    var last := |nodes| - 1;
    var init := AllEntries(epoch, numbers, nodes[..last]);
    var tail := Entries(epoch, numbers, nodes[last]);
    if r in ChildIds(epoch, numbers, nodes[..last]) {
      ChildrenAreDeclared(epoch, numbers, nodes[..last], r);
      DeclaredFurtherOn([], init, tail, r);
      assert [] + init + tail == init + tail;
    } else {
      assert tail[|tail| - 1].id == r;
      assert (init + tail)[|init| + |tail| - 1].id == r;
    }
  }

  lemma {:induction false} EntriesAreClosed(epoch: bv32, numbers: Numbering, node: Node)
    ensures ReferencesDeclared(Entries(epoch, numbers, node))
    decreases node, 1
  {
    if node.id in numbers {
      AllEntriesAreClosed(epoch, numbers, node.children);
      var below := AllEntries(epoch, numbers, node.children);
      var entries := Entries(epoch, numbers, node);
      forall i, r | 0 <= i < |entries| && r in entries[i].children ensures Declared(entries[..i], r) {
        if i < |below| {
          assert entries[..i] == below[..i];
        } else {
          ChildrenAreDeclared(epoch, numbers, node.children, r);
          assert entries[..i] == below;
        }
      }
    }
  }

  lemma {:induction false} AllEntriesAreClosed(epoch: bv32, numbers: Numbering, nodes: seq<Node>)
    ensures ReferencesDeclared(AllEntries(epoch, numbers, nodes))
    decreases nodes, 0
  {
    if nodes != [] {
      var last := |nodes| - 1;
      AllEntriesAreClosed(epoch, numbers, nodes[..last]);
      EntriesAreClosed(epoch, numbers, nodes[last]);
      DeclarationsJoin(AllEntries(epoch, numbers, nodes[..last]), Entries(epoch, numbers, nodes[last]));
    }
  }

  /** An entry from which a chain of references leads back to the last entry. */
  ghost predicate Reached(entries: seq<AccessNode>, j: nat)
    requires j < |entries|
    decreases |entries| - j
  {
    j == |entries| - 1 || exists i :: j < i < |entries| && entries[j].id in entries[i].children && Reached(entries, i)
  }

  ghost predicate NamedLater(entries: seq<AccessNode>, j: nat)
    requires j < |entries|
  {
    exists i :: j < i < |entries| && entries[j].id in entries[i].children
  }

  lemma {:induction false} NamedIsReached(entries: seq<AccessNode>, j: nat)
    requires j < |entries|
    requires forall k | 0 <= k < |entries| - 1 :: NamedLater(entries, k)
    ensures Reached(entries, j)
    decreases |entries| - j
  {
    if j < |entries| - 1 {
      assert NamedLater(entries, j);
      var i :| j < i < |entries| && entries[j].id in entries[i].children;
      NamedIsReached(entries, i);
    }
  }

  lemma NamedFurtherOn(before: seq<AccessNode>, entries: seq<AccessNode>, after: seq<AccessNode>, j: nat)
    requires j < |entries| && NamedLater(entries, j)
    ensures NamedLater(before + entries + after, |before| + j)
  {
    var all := before + entries + after;
    var i :| j < i < |entries| && entries[j].id in entries[i].children;
    assert all[|before| + i] == entries[i] && all[|before| + j] == entries[j];
  }

  lemma {:induction false} EntriesAreNamed(epoch: bv32, numbers: Numbering, node: Node, j: nat)
    requires j + 1 < |Entries(epoch, numbers, node)|
    ensures NamedLater(Entries(epoch, numbers, node), j)
    decreases node, 1
  {
    var below := AllEntries(epoch, numbers, node.children);
    var entries := Entries(epoch, numbers, node);
    assert entries[j] == below[j];
    AllEntriesAreNamed(epoch, numbers, node.children, j);
    if NamedLater(below, j) {
      NamedFurtherOn([], below, entries[|below|..], j);
      assert [] + below + entries[|below|..] == entries;
    } else {
      assert entries[j].id in entries[|below|].children;
    }
  }

  lemma {:induction false} AllEntriesAreNamed(epoch: bv32, numbers: Numbering, nodes: seq<Node>, j: nat)
    requires j < |AllEntries(epoch, numbers, nodes)|
    ensures NamedLater(AllEntries(epoch, numbers, nodes), j) ||
      AllEntries(epoch, numbers, nodes)[j].id in ChildIds(epoch, numbers, nodes)
    decreases nodes, 0
  {
    var last := |nodes| - 1;
    var init := AllEntries(epoch, numbers, nodes[..last]);
    var tail := Entries(epoch, numbers, nodes[last]);
    if j < |init| {
      AllEntriesAreNamed(epoch, numbers, nodes[..last], j);
      if NamedLater(init, j) {
        NamedFurtherOn([], init, tail, j);
        assert [] + init + tail == init + tail;
      }
    } else if j - |init| + 1 < |tail| {
      EntriesAreNamed(epoch, numbers, nodes[last], j - |init|);
      NamedFurtherOn(init, tail, [], j - |init|);
      assert init + tail + [] == init + tail;
    }
  }

  /** An entry refers to the numbered ones among its node's children, in document order. */
  lemma {:induction false} ChildIdsAreExact(epoch: bv32, numbers: Numbering, nodes: seq<Node>)
    ensures Selects(nodes, ChildIds(epoch, numbers, nodes), (c: Node) => c.id in numbers,
                    (c: Node, id: bv64) => c.id in numbers && id == AccessId(epoch, numbers[c.id]))
  {
    if nodes != [] {
      var init, last := nodes[..|nodes| - 1], nodes[|nodes| - 1];
      assert nodes == init + [last];
      ChildIdsAreExact(epoch, numbers, init);
      var keeps := (c: Node) => c.id in numbers;
      var becomes := (c: Node, id: bv64) => c.id in numbers && id == AccessId(epoch, numbers[c.id]);
      if last.id in numbers {
        OneKept(init, ChildIds(epoch, numbers, init), keeps, becomes, last, AccessId(epoch, numbers[last.id]));
      } else {
        OneDropped(init, ChildIds(epoch, numbers, init), keeps, becomes, last);
      }
    }
  }

  /** What entry k of an update is: the identifier of a node, with references to that node's own children. */
  lemma EntryIsExact(epoch: bv32, numbers: Numbering, dom: Node, k: nat) returns (path: seq<nat>)
    requires k < |Entries(epoch, numbers, dom)|
    ensures IsPath(dom, path)
    ensures var entry, node := Entries(epoch, numbers, dom)[k], At(dom, path);
            && node.id == entry.owner && node.id in numbers && entry.id == AccessId(epoch, numbers[node.id])
            && Selects(node.children, entry.children, (c: Node) => c.id in numbers,
                       (c: Node, id: bv64) => c.id in numbers && id == AccessId(epoch, numbers[c.id]))
  {
    path := ListedIsExposed(epoch, numbers, dom, k);
    ChildIdsAreExact(epoch, numbers, At(dom, path).children);
  }

  // ---- The update as a whole ----

  /** Different nodes have different numbers, none of them the very last one. */
  ghost predicate Injective(numbers: Numbering) {
    && (forall a, b | a in numbers && b in numbers && a != b :: numbers[a] != numbers[b])
    && (forall a | a in numbers :: numbers[a] != LAST_NUMBER)
  }

  ghost predicate DistinctIds(entries: seq<AccessNode>) {
    forall i, j | 0 <= i < j < |entries| :: entries[i].id != entries[j].id
  }

  /**
   * What the update of a numbered document is: exactly the exposed nodes, each once under an
   * identifier of its own, children before parents, every reference declared, and all of it reached
   * from the root entry, which comes last.
   */
  lemma UpdateIsATree(epoch: bv32, numbers: Numbering, dom: Node)
    requires dom.id in numbers && UniqueIds(dom) && Injective(numbers)
    ensures var entries := Entries(epoch, numbers, dom);
            && (forall id :: Lists(entries, id) <==> Exposed(numbers, dom, id))
            && Distinct(entries) && DistinctIds(entries)
            && ReferencesDeclared(entries)
            && entries != [] && entries[|entries| - 1].id == AccessId(epoch, numbers[dom.id])
            && (forall j | 0 <= j < |entries| :: Reached(entries, j))
  {
    var entries := Entries(epoch, numbers, dom);
    forall id ensures Lists(entries, id) <==> Exposed(numbers, dom, id) {
      ListsExactlyTheExposed(epoch, numbers, dom, id);
    }
    EachOnce(epoch, numbers, dom);
    forall i, j | 0 <= i < j < |entries| ensures entries[i].id != entries[j].id {
      var pi := ListedIsExposed(epoch, numbers, dom, i);
      var pj := ListedIsExposed(epoch, numbers, dom, j);
      AccessIdsDiffer(epoch, numbers[entries[i].owner], epoch, numbers[entries[j].owner]);
    }
    EntriesAreClosed(epoch, numbers, dom);
    forall k | 0 <= k < |entries| - 1 ensures NamedLater(entries, k) {
      EntriesAreNamed(epoch, numbers, dom, k);
    }
    forall j | 0 <= j < |entries| ensures Reached(entries, j) {
      NamedIsReached(entries, j);
    }
  }

  /** Updates of different generations have no identifier in common, whatever documents they describe. */
  lemma GenerationsAreDisjoint(
    epoch: bv32, numbers: Numbering, dom: Node, i: nat, otherEpoch: bv32, otherNumbers: Numbering, other: Node, j: nat)
    requires epoch != otherEpoch && Injective(numbers) && Injective(otherNumbers)
    requires i < |Entries(epoch, numbers, dom)| && j < |Entries(otherEpoch, otherNumbers, other)|
    ensures Entries(epoch, numbers, dom)[i].id != Entries(otherEpoch, otherNumbers, other)[j].id
  {
    var p := ListedIsExposed(epoch, numbers, dom, i);
    var q := ListedIsExposed(otherEpoch, otherNumbers, other, j);
    var a, b := Entries(epoch, numbers, dom)[i].owner, Entries(otherEpoch, otherNumbers, other)[j].owner;
    AccessIdsDiffer(epoch, numbers[a], otherEpoch, otherNumbers[b]);
  }
}
