/** Manifest nodes as objects; a node with an address is clean, one without is dirty. */
module MantarayTree {
  import opened Bytes
  import opened Wrappers

  type Address = Bytes

  class MNode {
    var forks: seq<MNode>
    var address: Option<Address>

    constructor (forks: seq<MNode>, address: Option<Address>)
      ensures this.forks == forks && this.address == address
    {
      this.forks, this.address := forks, address;
    }
  }

  /** The shape of a tree of nodes. */
  datatype Shape = Shape(node: MNode, kids: seq<Shape>)

  ghost function Nodes(t: Shape): set<MNode>
    decreases t
  {
    {t.node} + AllNodes(t.kids)
  }

  ghost function AllNodes(ts: seq<Shape>): set<MNode>
    decreases ts
  {
    if ts == [] then {} else Nodes(ts[0]) + AllNodes(ts[1..])
  }

  /** No node occurs twice. */
  ghost predicate IsTree(t: Shape)
    decreases t
  {
    t.node !in AllNodes(t.kids) && AreTrees(t.kids)
  }

  ghost predicate AreTrees(ts: seq<Shape>)
    decreases ts
  {
    ts == [] || (IsTree(ts[0]) && AreTrees(ts[1..]) && Nodes(ts[0]) !! AllNodes(ts[1..]))
  }

  /** The objects are linked as the shape says. */
  ghost predicate Matches(t: Shape)
    reads Nodes(t)`forks
    decreases t
  {
    |t.node.forks| == |t.kids| && (forall i :: 0 <= i < |t.kids| ==> t.node.forks[i] == t.kids[i].node) &&
      AllMatch(t.kids)
  }

  ghost predicate AllMatch(ts: seq<Shape>)
    reads AllNodes(ts)`forks
    decreases ts
  {
    ts == [] || (Matches(ts[0]) && AllMatch(ts[1..]))
  }

  /** What hangs below a clean node is clean. */
  ghost predicate CleanBelow(nodes: set<MNode>)
    reads nodes`forks, nodes`address
  {
    forall n, c | n in nodes && c in n.forks && c in nodes :: n.address.Some? ==> c.address.Some?
  }

  ghost function Dirty(nodes: set<MNode>): set<MNode>
    reads nodes`address
  {
    set n | n in nodes && n.address.None?
  }

  lemma {:induction false} KidIn(ts: seq<Shape>, i: nat)
    requires i < |ts|
    ensures ts[i].node in AllNodes(ts) && Nodes(ts[i]) <= AllNodes(ts)
  {
    if i > 0 {
      KidIn(ts[1..], i - 1);
    }
  }

  /** Below a clean node nothing is dirty. */
  lemma {:induction false} CleanTree(t: Shape)
    requires Matches(t) && CleanBelow(Nodes(t)) && t.node.address.Some?
    ensures Dirty(Nodes(t)) == {}
    decreases t, 1
  {
    forall i | 0 <= i < |t.kids|
      ensures t.kids[i].node.address.Some?
    {
      KidIn(t.kids, i);
      assert t.node.forks[i] in t.node.forks;
    }
    CleanTrees(t.kids);
  }

  lemma {:induction false} CleanTrees(ts: seq<Shape>)
    requires AllMatch(ts) && CleanBelow(AllNodes(ts)) && forall i :: 0 <= i < |ts| ==> ts[i].node.address.Some?
    ensures Dirty(AllNodes(ts)) == {}
    decreases ts, 0
  {
    if ts != [] {
      CleanTree(ts[0]);
      CleanTrees(ts[1..]);
    }
  }
}
