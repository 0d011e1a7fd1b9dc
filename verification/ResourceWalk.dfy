/** What a walk over the resource tree of a whole file visits, directory by directory. */
module ResourceTree {
  import opened Wrappers
  import opened SmbReader
  import opened PeFormat

  datatype NodeType = ResourceDirectory | DirectoryEntry | DataString | DataEntry

  function SizeOf(ty: NodeType): nat {
    match ty
    case ResourceDirectory => 16
    case DirectoryEntry => 8
    case DataString => 4
    case DataEntry => 16
  }

  /** One visited structure: its kind, its level, its offset in the file, and the position in the
      visit of the level-1 entry it belongs to. */
  datatype Visit = Visit(ty: NodeType, level: nat, at: nat, root: Option<nat>)

  const HIGH_BIT := 0x8000_0000

  /** How many entries the directory says it has, named and numbered. */
  function Count(s: seq<byte>, dir: nat): nat
    requires dir + 16 <= |s|
  {
    U16(s, dir + 12) + U16(s, dir + 14)
  }

  predicate NameIsString(s: seq<byte>, entry: nat)
    requires entry + 8 <= |s|
  {
    U32(s, entry) >= HIGH_BIT
  }

  function NameOffset(s: seq<byte>, entry: nat): nat
    requires entry + 8 <= |s|
  {
    U32(s, entry) % HIGH_BIT
  }

  /** The same, where the entry is not known to be inside. */
  function OffsetOf(s: seq<byte>, entry: nat): nat {
    if entry + 8 <= |s| then OffsetToDirectory(s, entry) else 0
  }

  predicate DataIsDirectory(s: seq<byte>, entry: nat)
    requires entry + 8 <= |s|
  {
    U32(s, entry + 4) >= HIGH_BIT
  }

  function OffsetToDirectory(s: seq<byte>, entry: nat): nat
    requires entry + 8 <= |s|
  {
    U32(s, entry + 4) % HIGH_BIT
  }

  /** An entry and, when it is named, its name. */
  function EntryAndName(s: seq<byte>, base: nat, level: nat, root: nat, entry: nat,
                        acc: seq<Visit>): Option<seq<Visit>> {
    if !There(s, entry, 8) then None
    else Name(s, base, level, root, entry, acc + [Visit(DirectoryEntry, level, entry, Some(root))])
  }

  function Name(s: seq<byte>, base: nat, level: nat, root: nat, entry: nat, acc: seq<Visit>): Option<seq<Visit>>
    requires entry + 8 <= |s|
  {
    if !NameIsString(s, entry) then Some(acc)
    else
      var name := base + NameOffset(s, entry);
      if !There(s, name, 4) then None else Some(acc + [Visit(DataString, level, name, Some(root))])
  }

  /** The entries from number y on of a third-level directory that has count of them.  The first is
      looked up at offset; its data entry lies where the entry says.  From the second on, an entry is
      taken to follow the previous data entry, and its data entry to stand at the entry itself, or
      at its name. */
  function Level3(s: seq<byte>, base: nat, root: nat, count: nat, y: nat, offset: nat,
                  acc: seq<Visit>): Option<seq<Visit>>
    decreases count + 1 - y
  {
    if y > count then Some(acc)
    else
      match Entry3(s, base, root, y, offset, acc)
      case None => None
      case Some((next, acc)) => Level3(s, base, root, count, y + 1, next, acc)
  }

  /** One entry with its data entry, and where the next entry is looked up. */
  function Entry3(s: seq<byte>, base: nat, root: nat, y: nat, entry: nat, acc: seq<Visit>): Option<(nat, seq<Visit>)> {
    match EntryAndName(s, base, 3, root, entry, acc)
    case None => None
    case Some(acc) =>
      var data := DataOffset(s, base, y, entry);
      if !There(s, data, 16) then None else Some((data + 16, acc + [Visit(DataEntry, 3, data, Some(root))]))
  }

  function DataOffset(s: seq<byte>, base: nat, y: nat, entry: nat): nat
    requires entry + 8 <= |s|
  {
    if y == 1 then base + OffsetToDirectory(s, entry) else NameOrEntry(s, base, entry)
  }

  function NameOrEntry(s: seq<byte>, base: nat, entry: nat): nat
    requires entry + 8 <= |s|
  {
    if NameIsString(s, entry) then base + NameOffset(s, entry) else entry
  }

  /** The entries from number j on of a second-level directory; each leads to a third-level one. */
  function Level2(s: seq<byte>, base: nat, root: nat, dir: nat, j: nat, acc: seq<Visit>): Option<seq<Visit>>
    requires dir + 16 <= |s| && j > 0
    decreases Count(s, dir) + 1 - j
  {
    if j > Count(s, dir) then Some(acc)
    else
      match Entry2(s, base, root, dir + 8 + 8 * j, acc)
      case None => None
      case Some(acc) => Level2(s, base, root, dir, j + 1, acc)
  }

  function Entry2(s: seq<byte>, base: nat, root: nat, entry: nat, acc: seq<Visit>): Option<seq<Visit>> {
    match EntryAndName(s, base, 2, root, entry, acc)
    case None => None
    case Some(acc) => Directory3(s, base, root, base + OffsetToDirectory(s, entry), acc)
  }

  function Directory3(s: seq<byte>, base: nat, root: nat, dir: nat, acc: seq<Visit>): Option<seq<Visit>> {
    if !There(s, dir, 16) then None
    else Level3(s, base, root, Count(s, dir), 1, dir + 16, acc + [Visit(ResourceDirectory, 3, dir, Some(root))])
  }

  /** The entries from number i on of the root directory; those that lead to a directory are entered. */
  function Level1(s: seq<byte>, base: nat, i: nat, acc: seq<Visit>): Option<seq<Visit>>
    requires base + 16 <= |s| && i > 0
    decreases Count(s, base) + 1 - i
  {
    if i > Count(s, base) then Some(acc)
    else
      match Entry1(s, base, base + 8 + 8 * i, acc)
      case None => None
      case Some(acc) => Level1(s, base, i + 1, acc)
  }

  function Entry1(s: seq<byte>, base: nat, entry: nat, acc: seq<Visit>): Option<seq<Visit>> {
    var root := |acc|;
    match EntryAndName(s, base, 1, root, entry, acc)
    case None => None
    case Some(acc) => Lead1(s, base, root, entry, acc)
  }

  function Lead1(s: seq<byte>, base: nat, root: nat, entry: nat, acc: seq<Visit>): Option<seq<Visit>>
    requires entry + 8 <= |s|
  {
    if DataIsDirectory(s, entry) then Directory2(s, base, root, base + OffsetToDirectory(s, entry), acc) else Some(acc)
  }

  function Directory2(s: seq<byte>, base: nat, root: nat, dir: nat, acc: seq<Visit>): Option<seq<Visit>> {
    if !There(s, dir, 16) then None
    else Level2(s, base, root, dir, 1, acc + [Visit(ResourceDirectory, 2, dir, Some(root))])
  }

  /** The whole walk from the root directory at base; None when something it needs is not there. */
  function Walk(s: seq<byte>, base: nat): Option<seq<Visit>> {
    if !There(s, base, 16) then None
    else Level1(s, base, 1, [Visit(ResourceDirectory, 1, base, None)])
  }
}

/** The nodes of the list, and the heap they live on. */
module ResourceHeap {
  import opened ResourceTree

  class Node {
    var nodeType: NodeType
    var nodeLevel: nat
    var resource: nat
    var nextNode: Node?
    var lastNode: Node?
    var rootNode: Node?
    ghost const position: nat // in the list

    constructor (ty: NodeType, last: Node?, ghost position: nat)
      ensures this.position == position
      ensures nodeType == ty && nodeLevel == 0 && resource == 0
      ensures nextNode == null && lastNode == last && rootNode == null
    {
      this.position := position;
      nodeType, nodeLevel, resource := ty, 0, 0;
      nextNode, lastNode, rootNode := null, last, null;
    }
  }

  ghost function NodeSet(nodes: seq<Node>): set<Node> {
    set n | n in nodes
  }

  /** malloc and free, with the nodes that are allocated at the moment: those that were when the current
      walk began, and those allocated since.  A node can be read only while it is allocated. */
  class NodeHeap {
    ghost var older: set<Node>
    ghost var recent: seq<Node>

    ghost function Live(): set<Node>
      reads this
    {
      older + NodeSet(recent)
    }

    ghost predicate Holds(n: Node)
      reads this
    {
      n in Live()
    }

    function TypeOf(n: Node): NodeType
      requires Holds(n)
      reads this, n
    {
      n.nodeType
    }

    function LevelOf(n: Node): nat
      requires Holds(n)
      reads this, n
    {
      n.nodeLevel
    }

    function ResourceOf(n: Node): nat
      requires Holds(n)
      reads this, n
    {
      n.resource
    }

    function LastOf(n: Node): Node?
      requires Holds(n)
      reads this, n
    {
      n.lastNode
    }

    function NextOf(n: Node): Node?
      requires Holds(n)
      reads this, n
    {
      n.nextNode
    }

    method Malloc(ty: NodeType, last: Node?, ghost position: nat) returns (node: Node)
      modifies this`recent
      ensures fresh(node) && recent == old(recent) + [node] && node !in older
      ensures node.position == position
      ensures node.nodeType == ty && node.nodeLevel == 0 && node.resource == 0
      ensures node.nextNode == null && node.lastNode == last && node.rootNode == null
    {
      node := new Node(ty, last, position);
      recent := recent + [node];
    }

    /** Only an allocated node can be freed, and so no node twice. */
    method Free(node: Node)
      requires Holds(node)
      modifies this
      ensures Live() == old(Live()) - {node}
    {
      older, recent := Live() - {node}, [];
    }

    /** The beginning of a walk. */
    ghost method Begin()
      modifies this
      ensures older == old(Live()) && recent == []
    {
      older, recent := Live(), [];
    }
  }
}

/** The doubly linked list that the walk builds, and its two backward searches and its release. */
module ResourceList {
  import opened Wrappers
  import opened ResourceTree
  import opened ResourceHeap

  /** The nodes, first to last, form one doubly linked list. */
  ghost predicate Linked(nodes: seq<Node>)
    reads nodes
  {
    && |nodes| > 0
    && (forall i {:trigger nodes[i].position} :: 0 <= i < |nodes| ==> nodes[i].position == i)
    && (forall i {:trigger nodes[i].lastNode} :: 0 <= i < |nodes| ==>
          nodes[i].lastNode == if i == 0 then null else nodes[i - 1])
    && (forall i {:trigger nodes[i].nextNode} :: 0 <= i < |nodes| ==>
          nodes[i].nextNode == if i == |nodes| - 1 then null else nodes[i + 1])
  }

  ghost predicate Shows(nodes: seq<Node>, n: Node, v: Visit)
    reads n
  {
    && n.nodeType == v.ty && n.nodeLevel == v.level && n.resource == v.at
    && (v.root.Some? ==> v.root.value < |nodes|)
    && n.rootNode == if v.root.Some? then nodes[v.root.value] else null
  }

  /** The list holds these visits, in order. */
  ghost predicate Describes(nodes: seq<Node>, visits: seq<Visit>)
    reads nodes
  {
    && |nodes| == |visits|
    && forall i {:trigger Shows(nodes, nodes[i], visits[i])} :: 0 <= i < |nodes| ==> Shows(nodes, nodes[i], visits[i])
  }

  /** createNode: a node at the end of the list. */
  method CreateNode(heap: NodeHeap, current: Node, ty: NodeType, ghost nodes: seq<Node>) returns (node: Node)
    requires Linked(nodes) && current == nodes[|nodes| - 1] && heap.Holds(current)
    modifies heap`recent, current`nextNode
    ensures fresh(node) && Linked(nodes + [node]) && heap.recent == old(heap.recent) + [node] && node !in heap.older
    ensures node.nodeType == ty && node.nodeLevel == 0 && node.resource == 0 && node.rootNode == null
  {
    node := heap.Malloc(ty, current, |nodes|);
    assert current.position == |nodes| - 1;
    current.nextNode := node;
    ghost var nodes' := nodes + [node];
    forall i | 0 <= i < |nodes'|
      ensures nodes'[i].position == i
      ensures nodes'[i].lastNode == if i == 0 then null else nodes'[i - 1]
      ensures nodes'[i].nextNode == if i == |nodes'| - 1 then null else nodes'[i + 1]
    {
      if i < |nodes| {
        assert nodes'[i] == nodes[i] && nodes[i].position == i;
        assert old(nodes[i].nextNode) == if i == |nodes| - 1 then null else nodes[i + 1];
      }
    }
  }

  /** A new node at the end of the list, filled in. */
  method AddNode(heap: NodeHeap, current: Node, ty: NodeType, level: nat, at: nat, root: Node?,
                 ghost rootIndex: nat, ghost nodes: seq<Node>, ghost visits: seq<Visit>)
    returns (node: Node)
    requires Linked(nodes) && Describes(nodes, visits) && current == nodes[|nodes| - 1] && heap.Holds(current)
    requires rootIndex <= |nodes|
    requires if rootIndex < |nodes| then root == nodes[rootIndex] else root == null
    modifies heap`recent, current`nextNode
    ensures fresh(node) && heap.recent == old(heap.recent) + [node] && node !in heap.older
    ensures Linked(nodes + [node]) && Describes(nodes + [node], visits + [Visit(ty, level, at, Some(rootIndex))])
  {
    node := CreateNode(heap, current, ty, nodes);
    node.rootNode := if root == null then node else root;
    node.nodeLevel, node.resource := level, at;
    ghost var nodes', visits' := nodes + [node], visits + [Visit(ty, level, at, Some(rootIndex))];
    forall i | 0 <= i < |nodes'|
      ensures Shows(nodes', nodes'[i], visits'[i])
    {
      if i < |nodes| {
        assert old(Shows(nodes, nodes[i], visits[i]));
      }
    }
    forall i | 0 <= i < |nodes'|
      ensures nodes'[i].position == i
      ensures nodes'[i].lastNode == if i == 0 then null else nodes'[i - 1]
      ensures nodes'[i].nextNode == if i == |nodes'| - 1 then null else nodes'[i + 1]
    {
    }
  }

  /** The last visit of this kind and level. */
  ghost function LastOf(visits: seq<Visit>, ty: NodeType, level: nat): Option<nat> {
    if visits == [] then None
    else
      var v := visits[|visits| - 1];
      if v.ty == ty && v.level == level then Some(|visits| - 1) else LastOf(visits[..|visits| - 1], ty, level)
  }

  /** All nodes of the list are allocated. */
  ghost predicate AllHeld(heap: NodeHeap, nodes: seq<Node>)
    reads heap
  {
    forall i :: 0 <= i < |nodes| ==> heap.Holds(nodes[i])
  }

  /** The search backwards from a node finds the last node before it, or itself, of this kind and level. */
  method LastNodeByTypeAndLevel(heap: NodeHeap, current: Node, ty: NodeType, level: nat,
                                ghost nodes: seq<Node>, ghost visits: seq<Visit>, ghost k: nat)
    returns (r: Node?)
    requires Linked(nodes) && Describes(nodes, visits) && k < |nodes| && current == nodes[k] && AllHeld(heap, nodes)
    ensures match LastOf(visits[..k + 1], ty, level)
            case Some(i) => i < |nodes| && r == nodes[i]
            case None => r == null
  {
    assert Shows(nodes, nodes[k], visits[k]);
    if heap.TypeOf(current) == ty && heap.LevelOf(current) == level {
      return current;
    }
    var node: Node? := current;
    ghost var left := k + 1;
    while node != null
      invariant 0 <= left <= k + 1
      invariant node == null <==> left == 0
      invariant node != null ==> node == nodes[left - 1] && !(node.nodeType == ty && node.nodeLevel == level)
      invariant LastOf(visits[..k + 1], ty, level) == LastOf(visits[..left], ty, level)
      decreases left
    {
      assert Shows(nodes, nodes[left - 1], visits[left - 1]);
      assert visits[..left][..left - 1] == visits[..left - 1];
      node, left := heap.LastOf(node), left - 1;
      if node != null {
        assert Shows(nodes, nodes[left - 1], visits[left - 1]);
      }
      if node != null && heap.TypeOf(node) == ty && heap.LevelOf(node) == level {
        return node;
      }
    }
    return null;
  }

  lemma AllDiffer(nodes: seq<Node>)
    requires Linked(nodes)
    ensures forall i, j :: 0 <= i < j < |nodes| ==> nodes[i] != nodes[j]
  {
    forall i, j | 0 <= i < j < |nodes|
      ensures nodes[i] != nodes[j]
    {
      assert nodes[i].position == i && nodes[j].position == j;
    }
  }

  /** From any node of the list every node is freed, each once and none read after that; nothing else is. */
  method FreeNodes(heap: NodeHeap, start: Node?, ghost nodes: seq<Node>, ghost k: nat)
    requires start != null ==> Linked(nodes) && k < |nodes| && start == nodes[k] && AllHeld(heap, nodes)
    modifies heap
    ensures heap.Live() == old(heap.Live()) - if start == null then {} else NodeSet(nodes)
  {
    if start == null {
      return;
    }
    var current: Node? := start;
    ghost var at := k;
    while heap.NextOf(current) != null
      invariant 0 <= at < |nodes| && current == nodes[at]
      decreases |nodes| - at
    {
      current, at := heap.NextOf(current), at + 1;
    }
    AllDiffer(nodes);
    assert nodes[at + 1..] == [];
    while current != null
      invariant 0 <= at < |nodes| && current == nodes[at]
      invariant heap.Live() == old(heap.Live()) - NodeSet(nodes[at + 1..])
      invariant forall i :: 0 <= i <= at ==> heap.Holds(nodes[i])
      decreases at
    {
      if heap.LastOf(current) == null {
        heap.Free(current);
        assert nodes == [current] + nodes[1..];
        break;
      } else {
        current, at := heap.LastOf(current), at - 1;
        if heap.NextOf(current) != null {
          assert nodes[at + 1..] == [heap.NextOf(current)] + nodes[at + 2..];
          heap.Free(heap.NextOf(current));
        }
      }
    }
  }
}

/** discoveryNodesPeres: the walk over the lazily loaded buffer, which finds its loop bounds and
    offsets by searching the list backwards. */
module ResourceWalk {
  import opened Wrappers
  import opened IntervalSet
  import opened SmbReader
  import opened FileMapping
  import opened PeFormat
  import opened PeContext
  import opened ResourceTree
  import opened ResourceHeap
  import opened ResourceList

  /** Everything visited so far is inside the file and loaded. */
  ghost predicate VisitsLoaded(chunks: seq<Chunk>, n: nat, visits: seq<Visit>) {
    forall i {:trigger VisitLoaded(chunks, n, visits[i])} :: 0 <= i < |visits| ==> VisitLoaded(chunks, n, visits[i])
  }

  ghost predicate VisitLoaded(chunks: seq<Chunk>, n: nat, v: Visit) {
    v.at + SizeOf(v.ty) <= n && CoversAll(chunks, v.at, v.at + SizeOf(v.ty))
  }

  ghost predicate State(pc: PeContext, nodes: seq<Node>, visits: seq<Visit>, node: Node)
    reads pc, pc.fm, pc.fm.data, pc.fm.reader, pc.heap, nodes
  {
    var loaded := pc.Valid() && VisitsLoaded(pc.fm.chunks, pc.fm.data.Length, visits);
    var listed := Linked(nodes) && Describes(nodes, visits) && OnHeap(pc.heap, nodes);
    loaded && listed && node == nodes[|nodes| - 1]
  }

  /** The nodes of the walk are those allocated since it began, and new. */
  ghost predicate OnHeap(heap: NodeHeap, nodes: seq<Node>)
    reads heap
  {
    heap.recent == nodes && forall i :: 0 <= i < |nodes| ==> nodes[i] !in heap.older
  }

  /** From here on there is no directory at this level or above it, and no entry above it. */
  ghost predicate Below(visits: seq<Visit>, from: nat, level: nat) {
    forall i :: from <= i < |visits| ==>
      && visits[i].level >= level
      && (visits[i].ty == ResourceDirectory ==> visits[i].level > level)
  }

  lemma {:induction false} LastOfIs(visits: seq<Visit>, ty: NodeType, level: nat, i: nat)
    requires i < |visits| && visits[i].ty == ty && visits[i].level == level
    requires forall j :: i < j < |visits| ==> !(visits[j].ty == ty && visits[j].level == level)
    ensures LastOf(visits, ty, level) == Some(i)
  {
    if i < |visits| - 1 {
      LastOfIs(visits[..|visits| - 1], ty, level, i);
    }
  }

  /** The bound of a loop: the two counts of the directory that the backward search finds, which is
      the one the loop enumerates. */
  method Bound(pc: PeContext, node: Node, level: nat, ghost nodes: seq<Node>, ghost visits: seq<Visit>, ghost dir: nat)
    returns (n: nat)
    requires State(pc, nodes, visits, node)
    requires dir < |visits| && visits[dir].ty == ResourceDirectory && visits[dir].level == level
    requires Below(visits, dir + 1, level)
    ensures VisitLoaded(pc.fm.chunks, pc.fm.data.Length, visits[dir])
    ensures n == Count(pc.fm.reader.content, visits[dir].at)
  {
    LastOfIs(visits, ResourceDirectory, level, dir);
    assert visits[..|nodes|] == visits;
    var d := LastNodeByTypeAndLevel(pc.heap, node, ResourceDirectory, level, nodes, visits, |nodes| - 1);
    assert Shows(nodes, nodes[dir], visits[dir]) && VisitLoaded(pc.fm.chunks, pc.fm.data.Length, visits[dir]);
    var named := pc.Get16(pc.heap.ResourceOf(d) + 12);
    d := LastNodeByTypeAndLevel(pc.heap, node, ResourceDirectory, level, nodes, visits, |nodes| - 1);
    var ids := pc.Get16(pc.heap.ResourceOf(d) + 14);
    n := named + ids;
  }

  /** The entry that the backward search finds is the one just enumerated; the word where it leads. */
  method EntryData(pc: PeContext, node: Node, level: nat, ghost nodes: seq<Node>, ghost visits: seq<Visit>,
                   ghost entry: nat)
    returns (word: nat)
    requires State(pc, nodes, visits, node)
    requires entry < |visits| && visits[entry].ty == DirectoryEntry && visits[entry].level == level
    requires forall j :: entry < j < |visits| ==> !(visits[j].ty == DirectoryEntry && visits[j].level == level)
    ensures visits[entry].at + 8 <= |pc.fm.reader.content|
    ensures word == U32(pc.fm.reader.content, visits[entry].at + 4)
  {
    LastOfIs(visits, DirectoryEntry, level, entry);
    assert visits[..|nodes|] == visits;
    var e := LastNodeByTypeAndLevel(pc.heap, node, DirectoryEntry, level, nodes, visits, |nodes| - 1);
    assert Shows(nodes, nodes[entry], visits[entry]) && VisitLoaded(pc.fm.chunks, pc.fm.data.Length, visits[entry]);
    word := pc.Get32(pc.heap.ResourceOf(e) + 4);
  }

  const OFFSET_LIMIT := SIZE_LIMIT - 0x2_0000_0000

  /** Map one structure and append its node. */
  method Append(pc: PeContext, node0: Node, ty: NodeType, level: nat, at: nat, root: Node?, ghost rootIndex: nat,
                ghost nodes0: seq<Node>, ghost visits0: seq<Visit>)
    returns (ok: bool, node: Node, ghost nodes: seq<Node>, ghost visits: seq<Visit>)
    requires State(pc, nodes0, visits0, node0) && at + 16 < SIZE_LIMIT
    requires rootIndex <= |nodes0|
    requires if rootIndex < |nodes0| then root == nodes0[rootIndex] else root == null
    modifies pc.fm`chunks, pc.fm.data, pc.fm.reader`cursor, pc.fm.reader`requested, pc.heap`recent, node0`nextNode
    ensures State(pc, nodes, visits, node)
    ensures if ok then nodes == nodes0 + [node] && fresh(node) else nodes == nodes0
    ensures ok ==> There(pc.fm.reader.content, at, SizeOf(ty))
    ensures pc.fm.reader.reliable ==> ok == There(pc.fm.reader.content, at, SizeOf(ty))
    ensures visits == if ok then visits0 + [Visit(ty, level, at, Some(rootIndex))] else visits0
  {
    ok := pc.Map(at, SizeOf(ty));
    forall i | 0 <= i < |visits0|
      ensures VisitLoaded(pc.fm.chunks, pc.fm.data.Length, visits0[i])
    {
      assert old(VisitLoaded(pc.fm.chunks, pc.fm.data.Length, visits0[i]));
    }
    forall i | 0 <= i < |nodes0|
      ensures Shows(nodes0, nodes0[i], visits0[i])
    {
      assert old(Shows(nodes0, nodes0[i], visits0[i]));
    }
    if ok {
      node := AddNode(pc.heap, node0, ty, level, at, root, rootIndex, nodes0, visits0);
      nodes, visits := nodes0 + [node], visits0 + [Visit(ty, level, at, Some(rootIndex))];
      assert VisitLoaded(pc.fm.chunks, pc.fm.data.Length, Visit(ty, level, at, Some(rootIndex)));
    } else {
      node, nodes, visits := node0, nodes0, visits0;
    }
  }

  /** What every piece of the walk keeps: the list so far is extended. */
  ghost predicate Extended(pc: PeContext, nodes0: seq<Node>, visits0: seq<Visit>, nodes: seq<Node>,
                           visits: seq<Visit>, node: Node)
    reads pc, pc.fm, pc.fm.data, pc.fm.reader, pc.heap, nodes
  {
    State(pc, nodes, visits, node) && nodes0 <= nodes && visits0 <= visits
  }

  method NameWord(pc: PeContext, node: Node, ghost nodes: seq<Node>, ghost visits: seq<Visit>) returns (word: nat)
    requires State(pc, nodes, visits, node) && visits[|visits| - 1].ty == DirectoryEntry
    ensures visits[|visits| - 1].at + 8 <= |pc.fm.reader.content|
    ensures word == U32(pc.fm.reader.content, visits[|visits| - 1].at) < 0x1_0000_0000
  {
    assert Shows(nodes, nodes[|nodes| - 1], visits[|visits| - 1]);
    assert VisitLoaded(pc.fm.chunks, pc.fm.data.Length, visits[|visits| - 1]);
    FieldsAreSmall(pc.fm.reader.content, visits[|visits| - 1].at);
    word := pc.Get32(pc.heap.ResourceOf(node));
  }

  /** The name of the entry just appended, if it has one.  The walk's offset moves there. */
  method AppendName(pc: PeContext, base: nat, level: nat, entry: nat, node0: Node, root: Node, ghost rootIndex: nat,
                    ghost nodes0: seq<Node>, ghost visits0: seq<Visit>)
    returns (ok: bool, node: Node, offset: nat, ghost nodes: seq<Node>, ghost visits: seq<Visit>)
    requires State(pc, nodes0, visits0, node0) && base < OFFSET_LIMIT
    requires rootIndex < |nodes0| && root == nodes0[rootIndex]
    requires visits0[|visits0| - 1] == Visit(DirectoryEntry, level, entry, Some(rootIndex))
    modifies pc.fm`chunks, pc.fm.data, pc.fm.reader`cursor, pc.fm.reader`requested, pc.heap`recent, node0`nextNode
    ensures State(pc, nodes, visits, node)
    ensures nodes == nodes0 || (nodes == nodes0 + [node] && fresh(node))
    ensures visits == visits0 || visits == visits0 + [Visit(DataString, level, offset, Some(rootIndex))]
    ensures entry + 8 <= |pc.fm.reader.content|
    ensures ok ==> Name(pc.fm.reader.content, base, level, rootIndex, entry, visits0) == Some(visits)
    ensures offset == NameOrEntry(pc.fm.reader.content, base, entry)
    ensures !ok && pc.fm.reader.reliable ==> Name(pc.fm.reader.content, base, level, rootIndex, entry, visits0) == None
  {
    var word := NameWord(pc, node0, nodes0, visits0);
    ok, node, offset, nodes, visits := true, node0, entry, nodes0, visits0;
    if word >= HIGH_BIT {
      offset := base + word % HIGH_BIT;
      ok, node, nodes, visits := Append(pc, node0, DataString, level, offset, root, rootIndex, nodes0, visits0);
    }
  }

  /** One more entry at this level, and nothing after it but its name. */
  ghost predicate EntryAdded(visits0: seq<Visit>, visits: seq<Visit>, level: nat, entry: nat) {
    && |visits0| < |visits|
    && visits[|visits0|].ty == DirectoryEntry && visits[|visits0|].level == level && visits[|visits0|].at == entry
    && forall j :: |visits0| < j < |visits| ==> visits[j].ty == DataString && visits[j].level == level
  }

  method AppendEntry(pc: PeContext, base: nat, level: nat, entry: nat, node0: Node, root: Node?, ghost rootIndex: nat,
                     ghost nodes0: seq<Node>, ghost visits0: seq<Visit>)
    returns (ok: bool, node: Node, root': Node, offset: nat, ghost nodes: seq<Node>, ghost visits: seq<Visit>)
    requires State(pc, nodes0, visits0, node0) && entry < SIZE_LIMIT - 16 && base < OFFSET_LIMIT
    requires rootIndex <= |nodes0|
    requires if rootIndex < |nodes0| then root == nodes0[rootIndex] else root == null
    modifies pc.fm`chunks, pc.fm.data, pc.fm.reader`cursor, pc.fm.reader`requested, pc.heap`recent, node0`nextNode
    ensures Extended(pc, nodes0, visits0, nodes, visits, node)
    ensures node == node0 || fresh(node)
    ensures ok ==> EntryAndName(pc.fm.reader.content, base, level, rootIndex, entry, visits0) == Some(visits)
    ensures ok ==> rootIndex < |nodes| && root' == nodes[rootIndex]
    ensures ok ==> EntryAdded(visits0, visits, level, entry) && entry + 8 <= |pc.fm.reader.content|
    ensures ok ==> offset == NameOrEntry(pc.fm.reader.content, base, entry)
    ensures !ok ==> offset <= if base + HIGH_BIT < entry then entry else base + HIGH_BIT
    ensures !ok && pc.fm.reader.reliable ==>
              EntryAndName(pc.fm.reader.content, base, level, rootIndex, entry, visits0) == None
  {
    root', offset := node0, entry;
    ok, node, nodes, visits := Append(pc, node0, DirectoryEntry, level, entry, root, rootIndex, nodes0, visits0);
    if !ok {
      return;
    }
    root' := if root == null then node else root;
    ok, node, offset, nodes, visits := AppendName(pc, base, level, entry, node, root', rootIndex, nodes, visits);
  }

  /** A data entry after a third-level entry. */
  method AppendData(pc: PeContext, base: nat, y: nat, entry: nat, offset0: nat, node0: Node, root: Node,
                    ghost rootIndex: nat, ghost at: nat, ghost nodes0: seq<Node>, ghost visits0: seq<Visit>)
    returns (ok: bool, node: Node, offset: nat, ghost nodes: seq<Node>, ghost visits: seq<Visit>)
    requires State(pc, nodes0, visits0, node0) && base < OFFSET_LIMIT && offset0 < SIZE_LIMIT - 16
    requires rootIndex < |nodes0| && root == nodes0[rootIndex]
    requires at < |visits0| && EntryAdded(visits0[..at], visits0, 3, entry)
    requires entry + 8 <= |pc.fm.reader.content| && offset0 == NameOrEntry(pc.fm.reader.content, base, entry)
    modifies pc.fm`chunks, pc.fm.data, pc.fm.reader`cursor, pc.fm.reader`requested, pc.heap`recent, node0`nextNode
    ensures State(pc, nodes, visits, node)
    ensures if ok then nodes == nodes0 + [node] && fresh(node) else nodes == nodes0
    ensures offset == DataOffset(pc.fm.reader.content, base, y, entry)
    ensures visits == if ok then visits0 + [Visit(DataEntry, 3, offset, Some(rootIndex))] else visits0
    ensures ok ==> There(pc.fm.reader.content, offset, 16)
    ensures pc.fm.reader.reliable ==> ok == There(pc.fm.reader.content, offset, 16)
  {
    offset := offset0;
    if y == 1 {
      var word := EntryData(pc, node0, 3, nodes0, visits0, at);
      offset := base + word % HIGH_BIT;
    }
    ok, node, nodes, visits := Append(pc, node0, DataEntry, 3, offset, root, rootIndex, nodes0, visits0);
  }

  method WalkEntry3(pc: PeContext, base: nat, y: nat, entry: nat, node0: Node, root: Node, ghost rootIndex: nat,
                    ghost nodes0: seq<Node>, ghost visits0: seq<Visit>)
    returns (ok: bool, node: Node, offset: nat, ghost nodes: seq<Node>, ghost visits: seq<Visit>)
    requires State(pc, nodes0, visits0, node0) && base < OFFSET_LIMIT && entry < SIZE_LIMIT - 16
    requires rootIndex < |nodes0| && root == nodes0[rootIndex]
    modifies pc.fm`chunks, pc.fm.data, pc.fm.reader`cursor, pc.fm.reader`requested, pc.heap`recent, node0`nextNode
    ensures Extended(pc, nodes0, visits0, nodes, visits, node) && (ok ==> Below(visits, |visits0|, 3))
    ensures node == node0 || fresh(node)
    ensures offset <= (if base + HIGH_BIT < entry then entry else base + HIGH_BIT) + 16
    ensures ok || pc.fm.reader.reliable ==>
              Entry3(pc.fm.reader.content, base, rootIndex, y, entry, visits0) ==
              if ok then Some((offset, visits)) else None
  {
    var root' := root;
    ok, node, root', offset, nodes, visits := AppendEntry(pc, base, 3, entry, node0, root, rootIndex, nodes0, visits0);
    if ok {
      ok, node, offset, nodes, visits :=
        AppendData(pc, base, y, entry, offset, node, root, rootIndex, |visits0|, nodes, visits);
      offset := offset + 16;
    }
  }

  /** What holds each time the loop over a directory tests its bound: the list has grown, by nothing
      that the backward searches could take for this directory. */
  ghost predicate InLoop(pc: PeContext, level: nat, dir: nat, root: Node?, rootIndex: Option<nat>,
                         nodes0: seq<Node>, visits0: seq<Visit>, nodes: seq<Node>, visits: seq<Visit>, node: Node)
    reads pc, pc.fm, pc.fm.data, pc.fm.reader, pc.heap, nodes
  {
    && Extended(pc, nodes0, visits0, nodes, visits, node)
    && Below(visits, |visits0|, level)
    && |visits0| > 0 && visits0[|visits0| - 1] == Visit(ResourceDirectory, level, dir, rootIndex)
    && (rootIndex.Some? ==> rootIndex.value < |nodes0| && root == nodes0[rootIndex.value])
  }

  method LoopBound(pc: PeContext, level: nat, dir: nat, root: Node?, ghost rootIndex: Option<nat>, node: Node,
                   ghost nodes0: seq<Node>, ghost visits0: seq<Visit>, ghost nodes: seq<Node>, ghost visits: seq<Visit>)
    returns (n: nat)
    requires InLoop(pc, level, dir, root, rootIndex, nodes0, visits0, nodes, visits, node)
    ensures dir + 16 <= |pc.fm.reader.content| && n == Count(pc.fm.reader.content, dir) < 0x2_0000
  {
    n := Bound(pc, node, level, nodes, visits, |visits0| - 1);
    CountIsSmall(pc.fm.reader.content, dir);
  }

  lemma Level3Unfolds(s: seq<byte>, base: nat, root: nat, count: nat, y: nat, entry: nat, acc: seq<Visit>,
                      next: Option<(nat, seq<Visit>)>)
    requires y <= count && Entry3(s, base, root, y, entry, acc) == next
    ensures Level3(s, base, root, count, y, entry, acc) ==
            match next case None => None case Some((entry', acc')) => Level3(s, base, root, count, y + 1, entry', acc')
  {
  }

  /** One pass through the third-level loop: its bound looked up again is the same. */
  method NextEntry3(pc: PeContext, base: nat, dir: nat, y: nat, entry: nat, node0: Node, root: Node,
                    ghost rootIndex: nat, ghost nodes0: seq<Node>, ghost visits0: seq<Visit>,
                    ghost nodes1: seq<Node>, ghost visits1: seq<Visit>)
    returns (ok: bool, node: Node, offset: nat, bound: nat, ghost nodes: seq<Node>, ghost visits: seq<Visit>)
    requires InLoop(pc, 3, dir, root, Some(rootIndex), nodes0, visits0, nodes1, visits1, node0)
    requires base < OFFSET_LIMIT && entry < SIZE_LIMIT - 16
    requires dir + 16 <= |pc.fm.reader.content| && y <= Count(pc.fm.reader.content, dir)
    modifies pc.fm`chunks, pc.fm.data, pc.fm.reader`cursor, pc.fm.reader`requested, pc.heap`recent, node0`nextNode
    ensures Extended(pc, nodes0, visits0, nodes, visits, node)
    ensures ok ==> InLoop(pc, 3, dir, root, Some(rootIndex), nodes0, visits0, nodes, visits, node)
    ensures node == node0 || fresh(node)
    ensures offset <= (if base + HIGH_BIT < entry then entry else base + HIGH_BIT) + 16
    ensures ok ==> bound == Count(pc.fm.reader.content, dir)
    ensures ok || pc.fm.reader.reliable ==>
              Level3(pc.fm.reader.content, base, rootIndex, Count(pc.fm.reader.content, dir), y, entry, visits1) ==
              var s := pc.fm.reader.content;
              if ok then Level3(s, base, rootIndex, Count(s, dir), y + 1, offset, visits) else None
  {
    ok, node, offset, nodes, visits := WalkEntry3(pc, base, y, entry, node0, root, rootIndex, nodes1, visits1);
    if ok || pc.fm.reader.reliable {
      Level3Unfolds(pc.fm.reader.content, base, rootIndex, Count(pc.fm.reader.content, dir), y, entry, visits1,
                    if ok then Some((offset, visits)) else None);
    }
    bound := 0;
    if ok {
      bound := LoopBound(pc, 3, dir, root, Some(rootIndex), node, nodes0, visits0, nodes, visits);
    }
  }

  method WalkLevel3(pc: PeContext, base: nat, dir: nat, node0: Node, root: Node, ghost rootIndex: nat,
                    ghost nodes0: seq<Node>, ghost visits0: seq<Visit>)
    returns (ok: bool, node: Node, ghost nodes: seq<Node>, ghost visits: seq<Visit>)
    requires InLoop(pc, 3, dir, root, Some(rootIndex), nodes0, visits0, nodes0, visits0, node0)
    requires base < OFFSET_LIMIT && dir < base + HIGH_BIT
    modifies pc.fm`chunks, pc.fm.data, pc.fm.reader`cursor, pc.fm.reader`requested, pc.heap`recent, node0`nextNode
    ensures Extended(pc, nodes0, visits0, nodes, visits, node)
    ensures ok ==> InLoop(pc, 3, dir, root, Some(rootIndex), nodes0, visits0, nodes, visits, node)
    ensures node == node0 || fresh(node)
    ensures dir + 16 <= |pc.fm.reader.content|
    ensures ok || pc.fm.reader.reliable ==>
              Level3(pc.fm.reader.content, base, rootIndex, Count(pc.fm.reader.content, dir), 1, dir + 16, visits0) ==
              if ok then Some(visits) else None
  {
    node, nodes, visits := node0, nodes0, visits0;
    var bound := LoopBound(pc, 3, dir, root, Some(rootIndex), node, nodes0, visits0, nodes, visits);
    var y: nat, offset: nat := 1, dir + 16;
    ghost var s := pc.fm.reader.content;
    while y <= bound
      invariant InLoop(pc, 3, dir, root, Some(rootIndex), nodes0, visits0, nodes, visits, node)
      invariant node == node0 || fresh(node)
      invariant bound == Count(s, dir) < 0x2_0000 && 1 <= y <= bound + 1 && offset <= base + HIGH_BIT + 16 * y
      invariant Level3(s, base, rootIndex, bound, 1, dir + 16, visits0) ==
                Level3(s, base, rootIndex, bound, y, offset, visits)
      decreases bound + 1 - y
    {
      ok, node, offset, bound, nodes, visits :=
        NextEntry3(pc, base, dir, y, offset, node, root, rootIndex, nodes0, visits0, nodes, visits);
      if !ok {
        return;
      }
      y := y + 1;
    }
    ok := true;
  }

  lemma CountIsSmall(s: seq<byte>, dir: nat)
    requires dir + 16 <= |s|
    ensures Count(s, dir) < 0x2_0000
  {
  }

  /** A second-level entry, its name, and the third-level directory it leads to. */
  method WalkEntry2(pc: PeContext, base: nat, entry: nat, node0: Node, root: Node, ghost rootIndex: nat,
                    ghost nodes0: seq<Node>, ghost visits0: seq<Visit>)
    returns (ok: bool, node: Node, ghost nodes: seq<Node>, ghost visits: seq<Visit>)
    requires State(pc, nodes0, visits0, node0) && base < OFFSET_LIMIT && entry < SIZE_LIMIT - 16
    requires rootIndex < |nodes0| && root == nodes0[rootIndex]
    modifies pc.fm`chunks, pc.fm.data, pc.fm.reader`cursor, pc.fm.reader`requested, pc.heap`recent, node0`nextNode
    ensures Extended(pc, nodes0, visits0, nodes, visits, node) && (ok ==> Below(visits, |visits0|, 2))
    ensures node == node0 || fresh(node)
    ensures ok || pc.fm.reader.reliable ==>
              Entry2(pc.fm.reader.content, base, rootIndex, entry, visits0) == if ok then Some(visits) else None
  {
    var root', offset := root, entry;
    ok, node, root', offset, nodes, visits := AppendEntry(pc, base, 2, entry, node0, root, rootIndex, nodes0, visits0);
    if ok {
      var word := EntryData(pc, node, 2, nodes, visits, |visits0|);
      ok, node, nodes, visits := EnterLevel3(pc, base, base + word % HIGH_BIT, node, root, rootIndex, nodes, visits);
    }
  }

  method EnterLevel3(pc: PeContext, base: nat, dir: nat, node0: Node, root: Node, ghost rootIndex: nat,
                     ghost nodes0: seq<Node>, ghost visits0: seq<Visit>)
    returns (ok: bool, node: Node, ghost nodes: seq<Node>, ghost visits: seq<Visit>)
    requires State(pc, nodes0, visits0, node0) && base < OFFSET_LIMIT && dir < base + HIGH_BIT
    requires rootIndex < |nodes0| && root == nodes0[rootIndex]
    modifies pc.fm`chunks, pc.fm.data, pc.fm.reader`cursor, pc.fm.reader`requested, pc.heap`recent, node0`nextNode
    ensures Extended(pc, nodes0, visits0, nodes, visits, node) && (ok ==> Below(visits, |visits0|, 2))
    ensures node == node0 || fresh(node)
    ensures ok || pc.fm.reader.reliable ==>
              Directory3(pc.fm.reader.content, base, rootIndex, dir, visits0) == if ok then Some(visits) else None
  {
    ok, node, nodes, visits := Append(pc, node0, ResourceDirectory, 3, dir, root, rootIndex, nodes0, visits0);
    if ok {
      ok, node, nodes, visits := WalkLevel3(pc, base, dir, node, root, rootIndex, nodes, visits);
    }
  }

  /** The level-1 entry that a second-level directory belongs to is found where it was appended. */
  ghost predicate RootEntry(s: seq<byte>, visits: seq<Visit>, rootIndex: nat, base: nat, dir: nat) {
    && rootIndex < |visits|
    && visits[rootIndex].ty == DirectoryEntry && visits[rootIndex].level == 1
    && (forall j :: rootIndex < j < |visits| ==> !(visits[j].ty == DirectoryEntry && visits[j].level == 1))
    && dir == base + OffsetOf(s, visits[rootIndex].at)
  }

  /** Below the first level the walk adds nothing that could be taken for that entry. */
  lemma RootStays(s: seq<byte>, visits0: seq<Visit>, visits: seq<Visit>, rootIndex: nat, base: nat, dir: nat)
    requires RootEntry(s, visits0, rootIndex, base, dir) && visits0 <= visits && Below(visits, |visits0|, 2)
    ensures RootEntry(s, visits, rootIndex, base, dir)
  {
  }

  lemma Level2Unfolds(s: seq<byte>, base: nat, root: nat, dir: nat, j: nat, entry: nat, acc: seq<Visit>,
                      next: Option<seq<Visit>>)
    requires dir + 16 <= |s| && 1 <= j <= Count(s, dir) && entry == dir + 8 + 8 * j
    requires Entry2(s, base, root, entry, acc) == next
    ensures Level2(s, base, root, dir, j, acc) ==
            match next case None => None case Some(acc') => Level2(s, base, root, dir, j + 1, acc')
  {
  }

  /** One pass through the second-level loop: its bound, and the entry it belongs to, looked up
      again are the same. */
  method NextEntry2(pc: PeContext, base: nat, dir: nat, ghost j: nat, offset: nat, node0: Node, root: Node,
                    ghost rootIndex: nat, ghost nodes0: seq<Node>, ghost visits0: seq<Visit>,
                    ghost nodes1: seq<Node>, ghost visits1: seq<Visit>)
    returns (ok: bool, node: Node, bound: nat, ghost nodes: seq<Node>, ghost visits: seq<Visit>)
    requires InLoop(pc, 2, dir, root, Some(rootIndex), nodes0, visits0, nodes1, visits1, node0)
    requires RootEntry(pc.fm.reader.content, visits0, rootIndex, base, dir)
    requires base < OFFSET_LIMIT
    requires dir + 16 <= |pc.fm.reader.content| && 1 <= j <= Count(pc.fm.reader.content, dir) && offset == 8 + 8 * j
    modifies pc.fm`chunks, pc.fm.data, pc.fm.reader`cursor, pc.fm.reader`requested, pc.heap`recent, node0`nextNode
    ensures Extended(pc, nodes0, visits0, nodes, visits, node)
    ensures ok ==> InLoop(pc, 2, dir, root, Some(rootIndex), nodes0, visits0, nodes, visits, node)
    ensures node == node0 || fresh(node)
    ensures ok ==> bound == Count(pc.fm.reader.content, dir)
    ensures ok || pc.fm.reader.reliable ==>
              Level2(pc.fm.reader.content, base, rootIndex, dir, j, visits1) ==
              if ok then Level2(pc.fm.reader.content, base, rootIndex, dir, j + 1, visits) else None
  {
    CountIsSmall(pc.fm.reader.content, dir);
    RootStays(pc.fm.reader.content, visits0, visits1, rootIndex, base, dir);
    var word := EntryData(pc, node0, 1, nodes1, visits1, rootIndex);
    ok, node, nodes, visits :=
      WalkEntry2(pc, base, base + word % HIGH_BIT + offset, node0, root, rootIndex, nodes1, visits1);
    if ok || pc.fm.reader.reliable {
      Level2Unfolds(pc.fm.reader.content, base, rootIndex, dir, j, dir + offset, visits1,
                    if ok then Some(visits) else None);
    }
    bound := 0;
    if ok {
      bound := LoopBound(pc, 2, dir, root, Some(rootIndex), node, nodes0, visits0, nodes, visits);
    }
  }

  method WalkLevel2(pc: PeContext, base: nat, dir: nat, node0: Node, root: Node, ghost rootIndex: nat,
                    ghost nodes0: seq<Node>, ghost visits0: seq<Visit>)
    returns (ok: bool, node: Node, ghost nodes: seq<Node>, ghost visits: seq<Visit>)
    requires InLoop(pc, 2, dir, root, Some(rootIndex), nodes0, visits0, nodes0, visits0, node0)
    requires RootEntry(pc.fm.reader.content, visits0, rootIndex, base, dir)
    requires base < OFFSET_LIMIT
    modifies pc.fm`chunks, pc.fm.data, pc.fm.reader`cursor, pc.fm.reader`requested, pc.heap`recent, node0`nextNode
    ensures Extended(pc, nodes0, visits0, nodes, visits, node) && (ok ==> Below(visits, |visits0|, 2))
    ensures node == node0 || fresh(node)
    ensures dir + 16 <= |pc.fm.reader.content|
    ensures ok || pc.fm.reader.reliable ==>
              Level2(pc.fm.reader.content, base, rootIndex, dir, 1, visits0) == if ok then Some(visits) else None
  {
    var bound := LoopBound(pc, 2, dir, root, Some(rootIndex), node0, nodes0, visits0, nodes0, visits0);
    ok, node, nodes, visits := LoopLevel2(pc, base, dir, bound, node0, root, rootIndex, nodes0, visits0);
  }

  /** The loop over a second-level directory, its bound looked up for the first time. */
  method LoopLevel2(pc: PeContext, base: nat, dir: nat, bound0: nat, node0: Node, root: Node, ghost rootIndex: nat,
                    ghost nodes0: seq<Node>, ghost visits0: seq<Visit>)
    returns (ok: bool, node: Node, ghost nodes: seq<Node>, ghost visits: seq<Visit>)
    requires InLoop(pc, 2, dir, root, Some(rootIndex), nodes0, visits0, nodes0, visits0, node0)
    requires RootEntry(pc.fm.reader.content, visits0, rootIndex, base, dir)
    requires base < OFFSET_LIMIT && dir + 16 <= |pc.fm.reader.content| && bound0 == Count(pc.fm.reader.content, dir)
    modifies pc.fm`chunks, pc.fm.data, pc.fm.reader`cursor, pc.fm.reader`requested, pc.heap`recent, node0`nextNode
    ensures Extended(pc, nodes0, visits0, nodes, visits, node) && (ok ==> Below(visits, |visits0|, 2))
    ensures node == node0 || fresh(node)
    ensures ok || pc.fm.reader.reliable ==>
              Level2(pc.fm.reader.content, base, rootIndex, dir, 1, visits0) == if ok then Some(visits) else None
  {
    node, nodes, visits := node0, nodes0, visits0;
    var bound, j: nat, offsetDirectory2: nat := bound0, 1, 0;
    ghost var s := pc.fm.reader.content;
    while j <= bound
      invariant Extended(pc, nodes0, visits0, nodes, visits, node) && Below(visits, |visits0|, 2)
      invariant node == node0 || fresh(node)
      invariant bound == bound0 && 1 <= j <= bound0 + 1
      invariant offsetDirectory2 == if j == 1 then 0 else 8 * j
      invariant Level2(s, base, rootIndex, dir, 1, visits0) == Level2(s, base, rootIndex, dir, j, visits)
      decreases bound0 + 1 - j
    {
      offsetDirectory2 := offsetDirectory2 + if j == 1 then 16 else 8;
      ok, node, bound, nodes, visits :=
        NextEntry2(pc, base, dir, j, offsetDirectory2, node, root, rootIndex, nodes0, visits0, nodes, visits);
      if !ok {
        return;
      }
      j := j + 1;
    }
    ok := true;
  }

  method EnterLevel2(pc: PeContext, base: nat, dir: nat, node0: Node, root: Node, ghost rootIndex: nat,
                     ghost nodes0: seq<Node>, ghost visits0: seq<Visit>)
    returns (ok: bool, node: Node, ghost nodes: seq<Node>, ghost visits: seq<Visit>)
    requires State(pc, nodes0, visits0, node0) && base < OFFSET_LIMIT && dir < base + HIGH_BIT
    requires rootIndex < |nodes0| && root == nodes0[rootIndex]
    requires RootEntry(pc.fm.reader.content, visits0, rootIndex, base, dir)
    modifies pc.fm`chunks, pc.fm.data, pc.fm.reader`cursor, pc.fm.reader`requested, pc.heap`recent, node0`nextNode
    ensures Extended(pc, nodes0, visits0, nodes, visits, node) && (ok ==> Below(visits, |visits0|, 1))
    ensures node == node0 || fresh(node)
    ensures ok || pc.fm.reader.reliable ==>
              Directory2(pc.fm.reader.content, base, rootIndex, dir, visits0) == if ok then Some(visits) else None
  {
    ok, node, nodes, visits := Append(pc, node0, ResourceDirectory, 2, dir, root, rootIndex, nodes0, visits0);
    if ok {
      ok, node, nodes, visits := WalkLevel2(pc, base, dir, node, root, rootIndex, nodes, visits);
    }
  }

  method FollowEntry1(pc: PeContext, base: nat, ghost entry: nat, node0: Node, root: Node, ghost rootIndex: nat,
                      ghost nodes0: seq<Node>, ghost visits0: seq<Visit>)
    returns (ok: bool, node: Node, ghost nodes: seq<Node>, ghost visits: seq<Visit>)
    requires State(pc, nodes0, visits0, node0) && base < OFFSET_LIMIT
    requires rootIndex < |nodes0| && root == nodes0[rootIndex]
    requires rootIndex < |visits0| && EntryAdded(visits0[..rootIndex], visits0, 1, entry)
    requires entry + 8 <= |pc.fm.reader.content|
    modifies pc.fm`chunks, pc.fm.data, pc.fm.reader`cursor, pc.fm.reader`requested, pc.heap`recent, node0`nextNode
    ensures Extended(pc, nodes0, visits0, nodes, visits, node) && (ok ==> Below(visits, |visits0|, 1))
    ensures node == node0 || fresh(node)
    ensures ok || pc.fm.reader.reliable ==>
              Lead1(pc.fm.reader.content, base, rootIndex, entry, visits0) == if ok then Some(visits) else None
  {
    ok, node, nodes, visits := true, node0, nodes0, visits0;
    var word := EntryData(pc, node0, 1, nodes0, visits0, rootIndex);
    if word >= HIGH_BIT {
      ok, node, nodes, visits := EnterLevel2(pc, base, base + word % HIGH_BIT, node0, root, rootIndex, nodes0, visits0);
    }
  }

  /** A first-level entry, its name, and the second-level directory that it may lead to. */
  method WalkEntry1(pc: PeContext, base: nat, entry: nat, node0: Node, ghost nodes0: seq<Node>,
                    ghost visits0: seq<Visit>)
    returns (ok: bool, node: Node, ghost nodes: seq<Node>, ghost visits: seq<Visit>)
    requires State(pc, nodes0, visits0, node0) && base < OFFSET_LIMIT && entry < SIZE_LIMIT - 16
    modifies pc.fm`chunks, pc.fm.data, pc.fm.reader`cursor, pc.fm.reader`requested, pc.heap`recent, node0`nextNode
    ensures Extended(pc, nodes0, visits0, nodes, visits, node) && (ok ==> Below(visits, |visits0|, 1))
    ensures node == node0 || fresh(node)
    ensures ok || pc.fm.reader.reliable ==>
              Entry1(pc.fm.reader.content, base, entry, visits0) == if ok then Some(visits) else None
  {
    var root, offset := node0, entry;
    ok, node, root, offset, nodes, visits := AppendEntry(pc, base, 1, entry, node0, null, |nodes0|, nodes0, visits0);
    if ok {
      ok, node, nodes, visits := FollowEntry1(pc, base, entry, node, root, |nodes0|, nodes, visits);
    }
  }

  lemma Level1Unfolds(s: seq<byte>, base: nat, i: nat, entry: nat, acc: seq<Visit>, next: Option<seq<Visit>>)
    requires base + 16 <= |s| && 1 <= i <= Count(s, base) && entry == base + 8 + 8 * i
    requires Entry1(s, base, entry, acc) == next
    ensures Level1(s, base, i, acc) ==
            match next case None => None case Some(acc') => Level1(s, base, i + 1, acc')
  {
  }

  method NextEntry1(pc: PeContext, base: nat, ghost i: nat, offset: nat, node0: Node,
                    ghost nodes0: seq<Node>, ghost visits0: seq<Visit>,
                    ghost nodes1: seq<Node>, ghost visits1: seq<Visit>,
                    ghost walk: Option<seq<Visit>>)
    returns (ok: bool, node: Node, bound: nat, ghost nodes: seq<Node>, ghost visits: seq<Visit>)
    requires InLoop(pc, 1, base, null, None, nodes0, visits0, nodes1, visits1, node0) && base < OFFSET_LIMIT
    requires base + 16 <= |pc.fm.reader.content| && 1 <= i <= Count(pc.fm.reader.content, base) && offset == 8 + 8 * i
    requires walk == Level1(pc.fm.reader.content, base, i, visits1)
    modifies pc.fm`chunks, pc.fm.data, pc.fm.reader`cursor, pc.fm.reader`requested, pc.heap`recent, node0`nextNode
    ensures Extended(pc, nodes0, visits0, nodes, visits, node)
    ensures ok ==> InLoop(pc, 1, base, null, None, nodes0, visits0, nodes, visits, node)
    ensures node == node0 || fresh(node)
    ensures ok ==> bound == Count(pc.fm.reader.content, base)
    ensures if ok then walk == Level1(pc.fm.reader.content, base, i + 1, visits)
            else pc.fm.reader.reliable ==> walk == None
  {
    CountIsSmall(pc.fm.reader.content, base);
    ok, node, nodes, visits := WalkEntry1(pc, base, base + offset, node0, nodes1, visits1);
    if ok || pc.fm.reader.reliable {
      Level1Unfolds(pc.fm.reader.content, base, i, base + offset, visits1, if ok then Some(visits) else None);
    }
    bound := 0;
    if ok {
      bound := LoopBound(pc, 1, base, null, None, node, nodes0, visits0, nodes, visits);
    }
  }

  method WalkLevel1(pc: PeContext, base: nat, node0: Node, ghost nodes0: seq<Node>, ghost visits0: seq<Visit>)
    returns (ok: bool, node: Node, ghost nodes: seq<Node>, ghost visits: seq<Visit>)
    requires InLoop(pc, 1, base, null, None, nodes0, visits0, nodes0, visits0, node0) && base < OFFSET_LIMIT
    modifies pc.fm`chunks, pc.fm.data, pc.fm.reader`cursor, pc.fm.reader`requested, pc.heap`recent, node0`nextNode
    ensures Extended(pc, nodes0, visits0, nodes, visits, node)
    ensures base + 16 <= |pc.fm.reader.content|
    ensures ok || pc.fm.reader.reliable ==>
              Level1(pc.fm.reader.content, base, 1, visits0) == if ok then Some(visits) else None
  {
    var bound := LoopBound(pc, 1, base, null, None, node0, nodes0, visits0, nodes0, visits0);
    ok, node, nodes, visits := LoopLevel1(pc, base, bound, node0, nodes0, visits0);
  }

  /** The loop over the root directory, its bound looked up for the first time. */
  method LoopLevel1(pc: PeContext, base: nat, bound0: nat, node0: Node, ghost nodes0: seq<Node>,
                    ghost visits0: seq<Visit>)
    returns (ok: bool, node: Node, ghost nodes: seq<Node>, ghost visits: seq<Visit>)
    requires InLoop(pc, 1, base, null, None, nodes0, visits0, nodes0, visits0, node0) && base < OFFSET_LIMIT
    requires base + 16 <= |pc.fm.reader.content| && bound0 == Count(pc.fm.reader.content, base)
    modifies pc.fm`chunks, pc.fm.data, pc.fm.reader`cursor, pc.fm.reader`requested, pc.heap`recent, node0`nextNode
    ensures Extended(pc, nodes0, visits0, nodes, visits, node)
    ensures ok || pc.fm.reader.reliable ==>
              Level1(pc.fm.reader.content, base, 1, visits0) == if ok then Some(visits) else None
  {
    node, nodes, visits := node0, nodes0, visits0;
    var bound, i: nat, offsetDirectory1: nat := bound0, 1, 0;
    ghost var s := pc.fm.reader.content;
    ghost var walk := Level1(s, base, 1, visits0);
    while i <= bound
      invariant Extended(pc, nodes0, visits0, nodes, visits, node) && Below(visits, |visits0|, 1)
      invariant node == node0 || fresh(node)
      invariant bound == bound0 && 1 <= i <= bound0 + 1
      invariant offsetDirectory1 == if i == 1 then 0 else 8 * i
      invariant walk == Level1(s, base, i, visits)
      decreases bound0 + 1 - i
    {
      offsetDirectory1 := offsetDirectory1 + if i == 1 then 16 else 8;
      ok, node, bound, nodes, visits :=
        NextEntry1(pc, base, i, offsetDirectory1, node, nodes0, visits0, nodes, visits, walk);
      if !ok {
        return;
      }
      i := i + 1;
    }
    ok := true;
  }

  /** The walk from a root directory.  It returns the last node of a doubly linked list that holds
      exactly the visits of the walk over the whole file, and allocates the nodes of that list and no
      others.  When a structure cannot be loaded, nothing is returned, and all nodes allocated on the way
      have been freed; with a reader that never fails that happens exactly when the walk over the whole
      file needs something that is not there. */
  method WalkFrom(pc: PeContext, base: nat) returns (node: Node?, ghost nodes: seq<Node>, ghost visits: seq<Visit>)
    requires pc.Valid() && base < U64_LIMIT
    modifies pc.fm`chunks, pc.fm.data, pc.fm.reader`cursor, pc.fm.reader`requested, pc.heap
    ensures pc.Valid()
    ensures node != null ==> State(pc, nodes, visits, node) && Walk(pc.fm.reader.content, base) == Some(visits)
    ensures node != null ==> pc.heap.older == old(pc.heap.Live()) && pc.heap.Live() == pc.heap.older + NodeSet(nodes)
    ensures node == null ==> pc.heap.Live() == old(pc.heap.Live())
    ensures node == null && pc.fm.reader.reliable ==> Walk(pc.fm.reader.content, base) == None
  {
    node, nodes, visits := null, [], [];
    pc.heap.Begin();
    if base >= FILE_LIMIT {
      // the address wraps to before the buffer, and map_chunk_by_pointer refuses it
      return;
    }
    var ok := pc.Map(base, 16);
    if !ok {
      return;
    }
    var root := pc.heap.Malloc(ResourceDirectory, null, 0);
    root.nodeLevel, root.resource := 1, base;
    nodes, visits := [root], [Visit(ResourceDirectory, 1, base, None)];
    assert VisitLoaded(pc.fm.chunks, pc.fm.data.Length, visits[0]) && Shows(nodes, nodes[0], visits[0]);
    ok, node, nodes, visits := WalkLevel1(pc, base, root, nodes, visits);
    if !ok {
      FreeNodes(pc.heap, node, nodes, |nodes| - 1);
      node := null;
    }
  }

  const RESOURCE_ENTRY := 2

  predicate HasResources(s: seq<byte>, pe: PeFile)
    requires TablesInside(s, pe)
  {
    pe.numDirectories > RESOURCE_ENTRY && U32(s, pe.directories.value[RESOURCE_ENTRY] + 4) != 0
  }

  /** discoveryNodesPeres on a parsed file: without a resource directory, or with an empty one, there
      is no walk; otherwise the walk starts at the file offset of the directory's address. */
  method Discover(pc: PeContext)
    returns (node: Node?, ghost base: nat, ghost nodes: seq<Node>, ghost visits: seq<Visit>)
    requires pc.Valid() && pc.TablesLoaded() && TablesInside(pc.fm.reader.content, pc.pe)
    modifies pc.fm`chunks, pc.fm.data, pc.fm.reader`cursor, pc.fm.reader`requested, pc.heap
    ensures pc.Valid()
    ensures var s, pe := pc.fm.reader.content, pc.pe;
            if !HasResources(s, pe) then node == null
            else
              && IsOffsetOf(s, pe.sections, U32(s, pe.directories.value[RESOURCE_ENTRY]), base)
              && (node != null ==> State(pc, nodes, visits, node) && Walk(s, base) == Some(visits))
              && (node == null && pc.fm.reader.reliable ==> Walk(s, base) == None)
    ensures node != null ==> pc.heap.older == old(pc.heap.Live()) && pc.heap.Live() == pc.heap.older + NodeSet(nodes)
    ensures node == null ==> pc.heap.Live() == old(pc.heap.Live())
  {
    node, base, nodes, visits := null, 0, [], [];
    if pc.pe.directories.None? || RESOURCE_ENTRY > pc.pe.numDirectories - 1 {
      return;
    }
    var entry := pc.pe.directories.value[RESOURCE_ENTRY];
    var size := pc.Get32(entry + 4);
    if size == 0 {
      return;
    }
    var rva := pc.Get32(entry);
    FieldsAreSmall(pc.fm.reader.content, entry);
    var offset := pc.Rva2Ofs(rva);
    OffsetFits(pc.fm.reader.content, pc.pe.sections, rva, offset);
    base := offset;
    node, nodes, visits := WalkFrom(pc, offset);
  }

  lemma OffsetFits(s: seq<byte>, sections: Option<seq<nat>>, rva: nat, ofs: nat)
    requires sections.Some? ==> SectionsThere(s, sections.value)
    requires IsOffsetOf(s, sections, rva, ofs) && rva < U64_LIMIT
    ensures ofs < U64_LIMIT
  {
  }

  /** End to end, from the remote file to the list: what is found through the lazy cache is what the
      whole file holds. */
  method FindResources(reader: SmbClient, heap: NodeHeap)
    returns (code: int, pc: PeContext, node: Node?, ghost base: nat, ghost nodes: seq<Node>, ghost visits: seq<Visit>)
    requires |reader.content| < FILE_LIMIT && reader.requested == []
    modifies reader, heap
    ensures pc.Valid() && pc.fm.reader == reader && pc.heap == heap
    ensures reader.reliable ==> code == EagerParse(reader.content, EMPTY_PE).0
    ensures code != 0 ==> node == null
    ensures code == 0 ==> (code, pc.pe) == EagerParse(reader.content, EMPTY_PE) && TablesInside(reader.content, pc.pe)
    ensures code == 0 ==>
              var s, pe := reader.content, pc.pe;
              if !HasResources(s, pe) then node == null
              else
                && IsOffsetOf(s, pe.sections, U32(s, pe.directories.value[RESOURCE_ENTRY]), base)
                && (node != null ==> State(pc, nodes, visits, node) && Walk(s, base) == Some(visits))
                && (node == null && reader.reliable ==> Walk(s, base) == None)
    ensures node != null ==> heap.older == old(heap.Live()) && heap.Live() == heap.older + NodeSet(nodes)
    ensures node == null ==> heap.Live() == old(heap.Live())
  {
    node, base, nodes, visits := null, 0, [], [];
    pc := new PeContext(reader, heap);
    code := pc.Parse();
    if code == 0 {
      ParseSucceeds(reader.content);
      node, base, nodes, visits := Discover(pc);
    }
  }
}
