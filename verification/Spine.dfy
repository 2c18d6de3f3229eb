/** Manifests as trees of values, and the nodes that stand for them in memory, some loaded and some not. */
module Manifests {
  import opened Bytes
  import opened Wrappers

  /** A reference: to a saved node, whose digest pins all that is below it, or to content. */
  datatype Ref = Digest(tree: Manifest) | Content(bytes: Bytes)

  datatype Manifest = Manifest(entry: Option<Ref>, edges: seq<Edge>)
  datatype Edge = Edge(key: Byte, prefix: Bytes, tree: Manifest)

  /** Each edge is filed under the first byte of its prefix. */
  ghost predicate Filed(m: Manifest)
    decreases m
  {
    && (forall i :: 0 <= i < |m.edges| ==>
       m.edges[i].prefix != [] && m.edges[i].prefix[0] == m.edges[i].key &&
       Filed(m.edges[i].tree))
    && forall i, j :: 0 <= i < j < |m.edges| ==> m.edges[i].key != m.edges[j].key
  }

  /** How long the two begin alike. */
  function CommonLength(a: Bytes, b: Bytes): (r: nat)
    ensures r <= |a| && r <= |b| && a[..r] == b[..r] && (r < |a| && r < |b| ==> a[r] != b[r])
  {
    if a == [] || b == [] || a[0] != b[0] then 0 else 1 + CommonLength(a[1..], b[1..])
  }

  method CommonPrefixLength(a: Bytes, b: Bytes) returns (i: nat)
    ensures i == CommonLength(a, b)
  {
    var max := if |a| < |b| then |a| else |b|;
    i := 0;
    while i < max && a[i] == b[i]
      invariant i <= max && a[..i] == b[..i]
    {
      i := i + 1;
    }
    CommonIsThis(a, b, i);
  }

  lemma {:induction false} CommonIsThis(a: Bytes, b: Bytes, i: nat)
    requires i <= |a| && i <= |b| && a[..i] == b[..i] && (i < |a| && i < |b| ==> a[i] != b[i])
    ensures i == CommonLength(a, b)
    decreases i
  {
    if i > 0 {
      assert a[0] == a[..i][0] == b[..i][0] == b[0];
      assert a[1..][..i - 1] == a[..i][1..] && b[1..][..i - 1] == b[..i][1..];
      CommonIsThis(a[1..], b[1..], i - 1);
    }
  }

  function FindEdge(edges: seq<Edge>, key: Byte): (r: Option<Edge>)
    ensures r.Some? ==> r.value in edges && r.value.key == key
  {
    if edges == [] then None else if edges[0].key == key then Some(edges[0]) else FindEdge(edges[1..], key)
  }

  /** What the manifest has at the end of the path: the map from paths to entries that it stands for. */
  function Lookup(m: Manifest, path: Bytes): (r: Option<Ref>)
    decreases |path|
  {
    if path == [] then m.entry
    else
      var edge := FindEdge(m.edges, path[0]);
      if edge.None? then None
      else
        var k := CommonLength(edge.value.prefix, path);
        if k < |edge.value.prefix| || k == 0 then None else Lookup(edge.value.tree, path[k..])
  }

  class Node {
    var entry: Option<Ref>
    var forks: Option<seq<Fork>>
    var address: Option<Ref>

    constructor (entry: Option<Ref>)
      ensures this.entry == entry && forks == None && address == None
    {
      this.entry, forks, address := entry, None, None;
    }
  }

  datatype Fork = Fork(key: Byte, prefix: Bytes, node: Node)

  /** The fork filed under this byte. */
  function FindFork(forks: seq<Fork>, key: Byte): (r: Option<Fork>)
    ensures r.Some? ==> r.value in forks && r.value.key == key
    ensures r.None? ==> forall f | f in forks :: f.key != key
  {
    if forks == [] then None else if forks[0].key == key then Some(forks[0]) else FindFork(forks[1..], key)
  }
}

/** loadAndStub, hydrateSpine and evictBelowDepth: what is in memory changes, what it stands for does not. */
module Spine {
  import opened Bytes
  import opened Manifests
  import opened Wrappers

  type Trees = map<Node, Manifest>
  type Depths = map<Node, nat>

  /** The children of a loaded node stand for the subtrees. */
  ghost predicate KidsOk(forks: seq<Fork>, edges: seq<Edge>, d: nat, trees: Trees, depth: Depths)
  {
    |forks| == |edges| && forall i :: 0 <= i < |forks| ==>
      && forks[i].key == edges[i].key && forks[i].prefix == edges[i].prefix
      && forks[i].node in trees && trees[forks[i].node] == edges[i].tree
      && forks[i].node in depth && depth[forks[i].node] == d + 1
  }

  /** The node stands for its tree: its address is the tree's, and its forks, once loaded, are the tree's edges. */
  ghost predicate NodeOk(n: Node, trees: Trees, depth: Depths)
    requires n in trees && n in depth
    reads n
  {
    && (n.address.Some? ==> n.address.value == Digest(trees[n]))
    && (n.forks.Some? ==> n.entry == trees[n].entry && KidsOk(n.forks.value, trees[n].edges, depth[n], trees, depth))
    && (n.forks.None? && n.address.None? ==> n.entry == trees[n].entry && trees[n].edges == [])
  }

  /** Nodes are only added, and go on standing for what they stood for. */
  ghost predicate Extends(trees: Trees, depth: Depths, trees0: Trees, depth0: Depths)
  {
    && (forall n | n in trees0 :: n in trees && trees[n] == trees0[n])
    && (forall n | n in depth0 :: n in depth && depth[n] == depth0[n])
  }

  ghost predicate AllOk(nodes: set<Node>, trees: Trees, depth: Depths)
    reads nodes
  {
    forall n | n in nodes :: n in trees && n in depth && NodeOk(n, trees, depth) && Filed(trees[n])
  }

  lemma {:induction false} KidsStayOk(forks: seq<Fork>, edges: seq<Edge>, d: nat, trees: Trees, depth: Depths,
      trees0: Trees, depth0: Depths)
    requires KidsOk(forks, edges, d, trees0, depth0) && Extends(trees, depth, trees0, depth0)
    ensures KidsOk(forks, edges, d, trees, depth)
  {
  }

  lemma {:induction false} AllStayOk(nodes: set<Node>, trees: Trees, depth: Depths, trees0: Trees, depth0: Depths)
    requires AllOk(nodes, trees0, depth0) && Extends(trees, depth, trees0, depth0)
    ensures AllOk(nodes, trees, depth)
  {
    hide KidsOk, Filed;
    forall n | n in nodes
      ensures n in trees && n in depth && NodeOk(n, trees, depth) && Filed(trees[n])
    {
      if n.forks.Some? {
        KidsStayOk(n.forks.value, trees0[n].edges, depth0[n], trees, depth, trees0, depth0);
      }
    }
  }

  lemma {:induction false} ExtendsSelf(trees: Trees, depth: Depths)
    ensures Extends(trees, depth, trees, depth)
  {
  }

  lemma {:induction false} ExtendsTrans(trees: Trees, depth: Depths, trees1: Trees, depth1: Depths, trees0: Trees,
      depth0: Depths)
    requires Extends(trees, depth, trees1, depth1) && Extends(trees1, depth1, trees0, depth0)
    ensures Extends(trees, depth, trees0, depth0)
  {
  }

  lemma {:induction false} EdgesFiled(m: Manifest)
    requires Filed(m)
    ensures forall i :: 0 <= i < |m.edges| ==> Filed(m.edges[i].tree)
  {
  }

  lemma {:induction false} Fewer(nodes: set<Node>, n: Node, trees: Trees, depth: Depths)
    requires AllOk(nodes, trees, depth)
    ensures AllOk(nodes - {n}, trees, depth)
  {
    hide NodeOk, Filed;
  }

  lemma {:induction false} Whole(n: Node, trees: Trees, depth: Depths)
    requires n in trees && n in depth && AllOk(trees.Keys - {n}, trees, depth) && NodeOk(n, trees, depth)
    requires Filed(trees[n])
    ensures AllOk(trees.Keys, trees, depth)
  {
    hide NodeOk, Filed;
  }

  /** The forks of all nodes at one moment. */
  type View = map<Node, Option<seq<Fork>>>

  ghost predicate Shrinks(v: View, w: View)
  {
    v.Keys == w.Keys && forall m | m in w :: v[m] == w[m] || v[m].None?
  }

  /** Of what can still be reached from the node, nothing below the limit is loaded. */
  ghost predicate Trimmed(v: View, n: Node, d: nat, limit: nat, tree: Manifest)
    requires n in v
    decreases tree
  {
    v[n].Some? ==> |v[n].value| == |tree.edges| && forall i :: 0 <= i < |tree.edges| ==>
      var child := v[n].value[i].node;
      child in v && (d + 1 > limit ==> v[child].None?) && Trimmed(v, child, d + 1, limit, tree.edges[i].tree)
  }

  lemma {:induction false} TrimmedStays(v: View, w: View, n: Node, d: nat, limit: nat, tree: Manifest)
    requires Shrinks(v, w) && n in w && Trimmed(w, n, d, limit, tree)
    ensures Trimmed(v, n, d, limit, tree)
    decreases tree
  {
    if v[n].Some? {
      forall i | 0 <= i < |tree.edges|
        ensures var child := v[n].value[i].node;
                child in v && (d + 1 > limit ==> v[child].None?) &&
                Trimmed(v, child, d + 1, limit, tree.edges[i].tree)
      {
        TrimmedStays(v, w, v[n].value[i].node, d + 1, limit, tree.edges[i].tree);
      }
    }
  }

  class Mantaray {
    const store: set<Ref>            // what the loader finds

    ghost var trees: Trees
    ghost var depth: Depths
    ghost var loads: seq<Node>       // loaded, in this order

    /** A tree of one node: new, or known by its address. */
    constructor (store: set<Ref>, root: Node)
      requires root.forks.None? && (root.address.Some? ==> root.address.value.Digest? && Filed(root.address.value.tree))
      ensures Valid() && root in trees && this.store == store && loads == []
      ensures trees[root] == if root.address.Some? then root.address.value.tree else Manifest(root.entry, [])
    {
      this.store, loads := store, [];
      trees := map[root := if root.address.Some? then root.address.value.tree else Manifest(root.entry, [])];
      depth := map[root := 0];
    }

    ghost predicate Valid()
      reads this, trees.Keys
    {
      trees.Keys == depth.Keys && AllOk(trees.Keys, trees, depth)
    }

    // ---------------------------------------------------------------- loading one node

    /** The forks as they come out of the chunk: each child a stub whose entry is its reference. */
    method Deserialise(edges: seq<Edge>) returns (forks: seq<Fork>)
      ensures |forks| == |edges|
      ensures forall i :: 0 <= i < |forks| ==>
              forks[i].key == edges[i].key && forks[i].prefix == edges[i].prefix &&
              IsStub(forks[i].node, edges[i].tree)
      ensures forall i :: 0 <= i < |forks| ==> fresh(forks[i].node)
      ensures forall i, j :: 0 <= i < j < |forks| ==> forks[i].node != forks[j].node
    {
      forks := [];
      var i := 0;
      while i < |edges|
        invariant i <= |edges| && |forks| == i
        invariant forall j :: 0 <= j < i ==>
                  forks[j].key == edges[j].key && forks[j].prefix == edges[j].prefix &&
                  IsStub(forks[j].node, edges[j].tree)
        invariant forall j :: 0 <= j < i ==> fresh(forks[j].node)
        invariant forall j, k :: 0 <= j < k < i ==> forks[j].node != forks[k].node
      {
        var stub := new Node(Some(Digest(edges[i].tree)));
        forks := forks + [Fork(edges[i].key, edges[i].prefix, stub)];
        i := i + 1;
      }
    }

    ghost predicate IsStub(n: Node, tree: Manifest)
      reads n
    {
      n.entry == Some(Digest(tree)) && n.forks.None? && n.address.None?
    }

    /** A stub gets its reference for its address, so that it counts as saved. */
    method StampOne(stub: Node, ghost n: Node, ghost tree: Manifest, ghost d: nat)
      requires trees.Keys == depth.Keys && AllOk(trees.Keys - {n}, trees, depth) && stub !in trees && stub != n
      requires IsStub(stub, tree) && Filed(tree)
      modifies this`trees, this`depth, stub`address
      ensures trees == old(trees)[stub := tree] && depth == old(depth)[stub := d]
      ensures trees.Keys == depth.Keys && AllOk(trees.Keys - {n}, trees, depth)
      ensures Extends(trees, depth, old(trees), old(depth))
    {
      var childRef := stub.entry;
      if childRef.Some? && stub.address.None? {
        stub.address := childRef;
      }
      ghost var trees0, depth0 := trees, depth;
      trees, depth := trees[stub := tree], depth[stub := d];
      AllStayOk(trees0.Keys - {n}, trees, depth, trees0, depth0);
      assert NodeOk(stub, trees, depth);
      assert trees.Keys - {n} == (trees0.Keys - {n}) + {stub};
    }

    /** The nodes of the forks from i on. */
    ghost predicate Unstamped(forks: seq<Fork>, edges: seq<Edge>, i: nat)
      requires |forks| == |edges|
      reads this`trees, set j | 0 <= j < |forks| :: forks[j].node
    {
      && (forall j :: i <= j < |forks| ==> IsStub(forks[j].node, edges[j].tree) && forks[j].node !in trees)
      && forall j, k :: 0 <= j < k < |forks| ==> forks[j].node != forks[k].node
    }

    ghost predicate Stamping(n: Node, forks: seq<Fork>, edges: seq<Edge>, d: nat, i: nat)
      requires i <= |forks| == |edges|
      reads this`trees, this`depth, trees.Keys - {n}, set j | 0 <= j < |forks| :: forks[j].node
    {
      && n in trees && trees[n].edges == edges && n in depth && depth[n] == d && trees.Keys == depth.Keys
      && AllOk(trees.Keys - {n}, trees, depth) && Unstamped(forks, edges, i) && Standing(forks, edges, d, i)
    }

    method StampNext(n: Node, forks: seq<Fork>, ghost edges: seq<Edge>, ghost d: nat, i: nat)
      requires i < |forks| == |edges| && Stamping(n, forks, edges, d, i) && Filed(edges[i].tree)
      modifies this`trees, this`depth, forks[i].node`address
      ensures Stamping(n, forks, edges, d, i + 1) && Extends(trees, depth, old(trees), old(depth))
      ensures trees.Keys == old(trees.Keys) + {forks[i].node}
    {
      hide AllOk, Filed, Extends;
      StampOne(forks[i].node, n, edges[i].tree, d + 1);
    }

    method StampStubs(n: Node, forks: seq<Fork>)
      requires n in trees && trees.Keys == depth.Keys && AllOk(trees.Keys - {n}, trees, depth) && Filed(trees[n])
      requires |forks| == |trees[n].edges| && Unstamped(forks, trees[n].edges, 0)
      requires forall i :: 0 <= i < |forks| ==>
               forks[i].key == trees[n].edges[i].key &&
               forks[i].prefix == trees[n].edges[i].prefix
      modifies this`trees, this`depth, (set j | 0 <= j < |forks| :: forks[j].node)`address
      ensures trees.Keys == depth.Keys && AllOk(trees.Keys - {n}, trees, depth)
      ensures Extends(trees, depth, old(trees), old(depth))
      ensures n in trees && n in depth && KidsOk(forks, trees[n].edges, depth[n], trees, depth)
      ensures trees.Keys == old(trees.Keys) + set j | 0 <= j < |forks| :: forks[j].node
    {
      hide AllOk, Filed, Extends, IsStub, Unstamped;
      ghost var edges, d := trees[n].edges, depth[n];
      EdgesFiled(trees[n]);
      ExtendsSelf(trees, depth);
      var i := 0;
      while i < |forks|
        invariant i <= |forks| == |edges| && Stamping(n, forks, edges, d, i)
        invariant Extends(trees, depth, old(trees), old(depth))
        invariant trees.Keys == old(trees.Keys) + set j | 0 <= j < i :: forks[j].node
      {
        ghost var trees1, depth1 := trees, depth;
        StampNext(n, forks, edges, d, i);
        ExtendsTrans(trees, depth, trees1, depth1, old(trees), old(depth));
        i := i + 1;
      }
    }

    ghost predicate Standing(forks: seq<Fork>, edges: seq<Edge>, d: nat, i: nat)
      requires i <= |forks| == |edges|
      reads this`trees, this`depth
    {
      forall j :: 0 <= j < i ==>
        forks[j].node in trees && trees[forks[j].node] == edges[j].tree &&
        forks[j].node in depth && depth[forks[j].node] == d + 1
    }

    /** Loads the node and stamps its stubs; a chunk that is not found leaves everything as it was. */
    method LoadAndStub(n: Node, ref: Ref) returns (ok: bool)
      requires Valid() && n in trees && n.forks.None? && n.address == Some(ref)
      modifies this`trees, this`depth, this`loads, n`entry, n`forks
      ensures Valid() && Extends(trees, depth, old(trees), old(depth)) && fresh(trees.Keys - old(trees.Keys))
      ensures ok <==> ref in store
      ensures ok ==> n.forks.Some? && loads == old(loads) + [n]
      ensures !ok ==> n.forks.None? && n.entry == old(n.entry) && loads == old(loads)
      ensures old(Backed()) ==> ok && Backed()
    {
      hide KidsOk, AllOk, Filed, Unstamped, Closed;
      ghost var nodes := trees.Keys;
      AddressOf(n, ref);
      if ref !in store {
        return false;
      }
      Fewer(trees.Keys, n, trees, depth);
      loads := loads + [n];
      var forks := Deserialise(ref.tree.edges);
      assert AllOk(trees.Keys - {n}, trees, depth);
      n.entry, n.forks := ref.tree.entry, Some(forks);
      NewStubs(forks, ref.tree.edges);
      StampStubs(n, forks);
      Whole(n, trees, depth);
      ok := true;
      if old(Backed()) {
        BackedStubs(n, forks, nodes);
      }
    }

    // ---------------------------------------------------------------- what can be loaded

    /** Every saved node has its children in the store. */
    ghost predicate Closed()
    {
      forall r | r in store && r.Digest? :: ChildrenIn(r.tree.edges)
    }

    ghost predicate ChildrenIn(edges: seq<Edge>)
    {
      forall i :: 0 <= i < |edges| ==> Digest(edges[i].tree) in store
    }

    /** All addresses in memory can be loaded, and so can all that hang below them. */
    ghost predicate Backed()
      reads this`trees, trees.Keys`address
    {
      Closed() && forall m | m in trees && m.address.Some? :: m.address.value in store
    }

    lemma {:induction false} BackedStubs(n: Node, forks: seq<Fork>, nodes: set<Node>)
      requires Valid() && n in trees && n.forks == Some(forks) && Closed() && Digest(trees[n]) in store
      requires forall m | m in nodes && m.address.Some? :: m.address.value in store
      requires trees.Keys == nodes + set j | 0 <= j < |forks| :: forks[j].node
      ensures Backed()
    {
      hide Filed;
      KidsOf(n, forks);
      assert ChildrenIn(trees[n].edges);
      forall m | m in trees && m.address.Some?
        ensures m.address.value in store
      {
        if m !in nodes {
          var j :| 0 <= j < |forks| && forks[j].node == m;
          assert NodeOk(m, trees, depth);
        }
      }
    }

    lemma {:induction false} AddressOf(n: Node, ref: Ref)
      requires Valid() && n in trees && n.address == Some(ref)
      ensures ref == Digest(trees[n]) && Filed(trees[n])
    {
      hide KidsOk;
      assert NodeOk(n, trees, depth);
    }

    lemma {:induction false} NewStubs(forks: seq<Fork>, edges: seq<Edge>)
      requires |forks| == |edges| && forall i :: 0 <= i < |forks| ==>
               IsStub(forks[i].node, edges[i].tree) && forks[i].node !in trees
      requires forall i, j :: 0 <= i < j < |forks| ==> forks[i].node != forks[j].node
      ensures Unstamped(forks, edges, 0)
    {
    }

    // ---------------------------------------------------------------- hydrateSpine

    /** Where the descent goes from here: to the fork whose whole prefix the path begins with. */
    ghost function Next(n: Node, path: Bytes): (r: Option<(Node, nat)>)
      reads n
      ensures r.Some? ==> r.value.1 <= |path|
    {
      if path == [] || n.forks.None? then None
      else
        var fork := FindFork(n.forks.value, path[0]);
        if fork.None? || CommonLength(fork.value.prefix, path) < |fork.value.prefix| then None
        else Some((fork.value.node, CommonLength(fork.value.prefix, path)))
    }

    /** The nodes the descent along the path comes to. */
    ghost function SpineOf(n: Node, path: Bytes): (r: seq<Node>)
      requires n in trees
      reads this`trees, trees.Keys
      ensures forall m | m in r :: m in trees
      decreases |path|
    {
      var next := Next(n, path);
      if next.None? || next.value.1 == 0 || next.value.0 !in trees then [n]
        else [n] + SpineOf(next.value.0, path[next.value.1..])
    }

    lemma {:induction false} NextOk(n: Node, path: Bytes)
      requires Valid() && n in trees && Next(n, path).Some?
      ensures var (child, k) := Next(n, path).value; child in trees && 0 < k && depth[child] == depth[n] + 1
    {
      assert NodeOk(n, trees, depth);
      var forks, edges := n.forks.value, trees[n].edges;
      var fork := FindFork(forks, path[0]).value;
      var i :| 0 <= i < |forks| && forks[i] == fork;
      assert edges[i].prefix != [];
    }

    /** The node has its forks, or has none to load. */
    ghost predicate Ready(n: Node)
      reads n
    {
      n.forks.Some? || n.address.None?
    }

    /** Materialises the node's own forks. */
    method Materialise(n: Node) returns (ok: bool, ghost new': seq<Node>)
      requires Valid() && n in trees
      modifies this`trees, this`depth, this`loads, n`entry, n`forks
      ensures Valid() && Extends(trees, depth, old(trees), old(depth)) && fresh(trees.Keys - old(trees.Keys))
      ensures loads == old(loads) + new' && (new' == [] || (new' == [n] && ok))
      ensures new' == [] ==> n.forks == old(n.forks) && n.entry == old(n.entry)
      ensures ok <==> Ready(n)
      ensures old(Backed()) ==> ok && Backed()
    {
      hide Backed, AllOk;
      new' := [];
      ok := true;
      if n.forks.None? && n.address.Some? {
        ok := LoadAndStub(n, n.address.value);
        new' := if ok then [n] else [];
      }
    }

    /** The loads went down the tree, each node once, and changed only what was loaded. */
    ghost predicate Downward(new': seq<Node>, d: nat)
      reads this`depth
    {
      && (forall i | 0 <= i < |new'| :: new'[i] in depth && depth[new'[i]] >= d)
      && forall i, j | 0 <= i < j < |new'| :: new'[i] in depth && new'[j] in depth && depth[new'[i]] < depth[new'[j]]
    }

    /** Every node of the descent has its forks, or has none to load. */
    ghost predicate SpineReady(n: Node, path: Bytes)
      requires n in trees
      reads this`trees, trees.Keys
    {
      forall m | m in trees && m in SpineOf(n, path) :: Ready(m)
    }

    ghost predicate OnSpine(nodes: seq<Node>, n: Node, path: Bytes)
      requires n in trees
      reads this`trees, trees.Keys
    {
      forall m | m in nodes :: m in SpineOf(n, path)
    }

    /**
     * Loads the descent along the path. It fails exactly when a node of the descent could not be
     * loaded; what it has loaded are nodes of the descent in any case.
     */
    method HydrateSpine(n: Node, path: Bytes) returns (ok: bool, ghost new': seq<Node>)
      requires Valid() && n in trees
      modifies this`trees, this`depth, this`loads, trees.Keys`entry, trees.Keys`forks
      ensures Valid() && Extends(trees, depth, old(trees), old(depth)) && fresh(trees.Keys - old(trees.Keys))
      ensures loads == old(loads) + new' && Downward(new', depth[n]) && OnSpine(new', n, path)
      ensures forall m | m in old(trees) && m !in new' :: m.forks == old(m.forks) && m.entry == old(m.entry)
      ensures ok <==> SpineReady(n, path)
      ensures old(Backed()) ==> ok && Backed()
      decreases |path|, 1
    {
      hide KidsOk, NodeOk, Filed, AllOk, CommonLength, FindFork, Downward, Ready, Next, Backed, SpineReady, OnSpine;
      ok, new' := Materialise(n);
      Own(new', n);
      if !ok {
        NotReady(n, path);
        return;
      }
      ghost var below;
      ok, below := Descend(n, path);
      Deeper(new', below, n);
      OwnOnSpine(new', below, n, path);
      new' := new' + below;
    }

    /** On from a node whose forks are there, into the fork that addFork would go down. */
    method Descend(n: Node, path: Bytes) returns (ok: bool, ghost below: seq<Node>)
      requires Valid() && n in trees && Ready(n)
      modifies this`trees, this`depth, this`loads, trees.Keys`entry, trees.Keys`forks
      ensures Valid() && Extends(trees, depth, old(trees), old(depth)) && fresh(trees.Keys - old(trees.Keys))
      ensures loads == old(loads) + below && Downward(below, depth[n] + 1) && OnSpine(below, n, path)
      ensures forall m | m in old(trees) && m !in below :: m.forks == old(m.forks) && m.entry == old(m.entry)
      ensures ok <==> SpineReady(n, path)
      ensures old(Backed()) ==> ok && Backed()
      decreases |path|, 0
    {
      hide KidsOk, NodeOk, Filed, AllOk, CommonLength, FindFork, Downward, Ready, Backed, SpineReady, OnSpine;
      below := [];
      ok := true;
      NoLoads(depth[n] + 1);
      if |path| == 0 || n.forks.None? {
        SpineEnds(n, path);
        return;
      }
      var fork := FindFork(n.forks.value, path[0]);
      if fork.None? {
        SpineEnds(n, path);
        return;
      }
      var commonLen := CommonPrefixLength(fork.value.prefix, path);
      if commonLen < |fork.value.prefix| {
        SpineEnds(n, path);
        return;
      }
      NextOk(n, path);
      ok, below := HydrateSpine(fork.value.node, path[commonLen..]);
      NotBelow(n, below, depth[n] + 1);
      SpineGoesOn(n, path, fork.value.node, commonLen, below);
    }

    lemma {:induction false} NotReady(n: Node, path: Bytes)
      requires n in trees && !Ready(n)
      ensures !SpineReady(n, path) && OnSpine([], n, path)
    {
      SpineHead(n, path);
    }

    lemma {:induction false} SpineEnds(n: Node, path: Bytes)
      requires n in trees && Ready(n) && Next(n, path).None?
      ensures SpineReady(n, path) && OnSpine([], n, path)
    {
    }

    lemma {:induction false} OwnOnSpine(new': seq<Node>, below: seq<Node>, n: Node, path: Bytes)
      requires n in trees && (new' == [] || new' == [n]) && OnSpine(below, n, path)
      ensures OnSpine(new' + below, n, path)
    {
      SpineHead(n, path);
    }

    lemma {:induction false} SpineGoesOn(n: Node, path: Bytes, child: Node, k: nat, below: seq<Node>)
      requires n in trees && child in trees && 0 < k <= |path| && Next(n, path) == Some((child, k)) && Ready(n)
      requires OnSpine(below, child, path[k..])
      ensures SpineReady(n, path) <==> SpineReady(child, path[k..])
      ensures OnSpine(below, n, path)
    {
      hide Next, Ready;
      SpineStep(n, path, child, k);
    }

    lemma {:induction false} NoLoads(d: nat)
      ensures Downward([], d)
    {
    }

    lemma {:induction false} NotBelow(n: Node, below: seq<Node>, d: nat)
      requires n in depth && Downward(below, d) && depth[n] < d
      ensures n !in below
    {
    }

    lemma {:induction false} SpineHead(n: Node, path: Bytes)
      requires n in trees
      ensures n in SpineOf(n, path)
    {
    }

    lemma {:induction false} Own(new': seq<Node>, n: Node)
      requires n in depth && (new' == [] || new' == [n])
      ensures Downward(new', depth[n])
    {
    }

    lemma {:induction false} Deeper(new': seq<Node>, below: seq<Node>, n: Node)
      requires n in depth && (new' == [] || new' == [n]) && Downward(below, depth[n] + 1)
      ensures Downward(new' + below, depth[n]) && n !in below
    {
    }

    lemma {:induction false} SpineStep(n: Node, path: Bytes, child: Node, k: nat)
      requires n in trees && child in trees && 0 < k <= |path| && Next(n, path) == Some((child, k))
      ensures SpineOf(n, path) == [n] + SpineOf(child, path[k..])
    {
    }

    /** The entry at the end of the path, as found in memory. */
    ghost function Resolve(n: Node, path: Bytes): (r: Option<Ref>)
      requires n in trees
      reads this`trees, trees.Keys
      decreases |path|
    {
      if path == [] then n.entry
      else
        var next := Next(n, path);
        if next.None? || next.value.1 == 0 || next.value.0 !in trees then None
          else Resolve(next.value.0, path[next.value.1..])
    }

    lemma {:induction false} SameFork(forks: seq<Fork>, edges: seq<Edge>, d: nat, key: Byte)
      requires KidsOk(forks, edges, d, trees, depth)
      ensures FindFork(forks, key).Some? <==> FindEdge(edges, key).Some?
      ensures FindFork(forks, key).Some? ==> var f := FindFork(forks, key).value; var e := FindEdge(edges, key).value;
        f.prefix == e.prefix && f.node in trees && trees[f.node] == e.tree
      decreases |forks|
    {
      if forks != [] {
        SameFork(forks[1..], edges[1..], d, key);
      }
    }

    /** On a hydrated spine the entry found in memory is the one the manifest stands for. */
    lemma {:induction false} SpineReadsManifest(n: Node, path: Bytes)
      requires Valid() && n in trees && SpineReady(n, path)
      ensures Resolve(n, path) == Lookup(trees[n], path)
      decreases |path|
    {
      assert NodeOk(n, trees, depth) && Ready(n);
      if path != [] && n.forks.Some? {
        SameFork(n.forks.value, trees[n].edges, depth[n], path[0]);
        if Next(n, path).Some? {
          var (child, k) := Next(n, path).value;
          NextOk(n, path);
          SpineReadsManifest(child, path[k..]);
        }
      }
    }

    // ---------------------------------------------------------------- evictBelowDepth

    ghost function View(): View
      reads this`trees, trees.Keys`forks
    {
      map m | m in trees :: m.forks
    }

    /** Every node this deep below the base has been saved, so its forks can be loaded again. */
    ghost predicate SavedBelow(bottom: nat)
      reads this`trees, this`depth, trees.Keys`address
    {
      forall m | m in trees && m in depth && depth[m] > bottom :: m.address.Some?
    }

    method Clear(m: Node)
      requires Valid() && m in trees && m.address.Some?
      modifies m`forks
      ensures Valid() && m.forks.None?
    {
      hide KidsOk, Filed;
      assert NodeOk(m, trees, depth);
      m.forks := None;
      assert NodeOk(m, trees, depth);
    }

    /** Only loaded nodes below the bottom and deeper than this have lost their forks. */
    ghost predicate Cut(v: View, bottom: nat, above: nat)
      reads this`trees, this`depth, trees.Keys`forks
    {
      && Shrinks(View(), v)
      && forall m | m in trees && m in depth && (depth[m] <= bottom || depth[m] <= above) :: m in v && m.forks == v[m]
    }

    method EvictWalk(n: Node, d: nat, limit: nat, ghost base: nat, ghost tree: Manifest)
      requires Valid() && n in trees && trees[n] == tree && depth[n] == base + d && SavedBelow(base + limit)
      modifies trees.Keys`forks
      ensures Valid() && Cut(old(View()), base + limit, base + d) && Trimmed(View(), n, d, limit, tree)
      decreases tree, 1
    {
      hide AllOk, Cut, Gone, Trimmed, SavedBelow, Shrinks;
      ghost var v0 := View();
      CutNothing(base + limit, base + d);
      if n.forks.None? {
        NothingLoaded(View(), n, d, limit, tree);
        return;
      }
      var forks := n.forks.value;
      KidsOf(n, forks);
      var i := 0;
      while i < |forks|
        invariant 0 <= i <= |forks| == |tree.edges| && Valid() && Cut(v0, base + limit, base + d)
        invariant n.forks == Some(forks)
        invariant AllGone(View(), forks, i, d, limit, tree)
      {
        ghost var w := View();
        EvictChild(n, forks, i, d, limit, base, tree, v0);
        MoreGone(View(), w, forks, i, d, limit, tree);
        i := i + 1;
      }
      KidsTrimmed(View(), n, forks, d, limit, tree);
    }

    ghost predicate AllGone(v: View, forks: seq<Fork>, i: nat, d: nat, limit: nat, tree: Manifest)
    {
      i <= |forks| == |tree.edges| && forall j :: 0 <= j < i ==> Gone(v, forks[j].node, d, limit, tree.edges[j].tree)
    }

    lemma {:induction false} CutNothing(bottom: nat, above: nat)
      ensures Cut(View(), bottom, above)
    {
    }

    lemma {:induction false} NothingLoaded(v: View, n: Node, d: nat, limit: nat, tree: Manifest)
      requires n in v && v[n].None?
      ensures Trimmed(v, n, d, limit, tree)
    {
    }

    lemma {:induction false} MoreGone(v: View, w: View, forks: seq<Fork>, i: nat, d: nat, limit: nat, tree: Manifest)
      requires Shrinks(v, w) && AllGone(w, forks, i, d, limit, tree) && i < |forks|
      requires Gone(v, forks[i].node, d, limit, tree.edges[i].tree)
      ensures AllGone(v, forks, i + 1, d, limit, tree)
    {
      hide Trimmed;
      forall j | 0 <= j < i
        ensures Gone(v, forks[j].node, d, limit, tree.edges[j].tree)
      {
        assert Gone(w, forks[j].node, d, limit, tree.edges[j].tree);
        TrimmedStays(v, w, forks[j].node, d + 1, limit, tree.edges[j].tree);
      }
    }

    lemma {:induction false} KidsTrimmed(v: View, n: Node, forks: seq<Fork>, d: nat, limit: nat, tree: Manifest)
      requires n in v && v[n] == Some(forks) && AllGone(v, forks, |forks|, d, limit, tree)
      ensures Trimmed(v, n, d, limit, tree)
    {
      forall i | 0 <= i < |tree.edges|
        ensures Gone(v, forks[i].node, d, limit, tree.edges[i].tree)
      {
      }
    }

    ghost predicate Gone(v: View, child: Node, d: nat, limit: nat, tree: Manifest)
    {
      child in v && (d + 1 > limit ==> v[child].None?) && Trimmed(v, child, d + 1, limit, tree)
    }

    lemma {:induction false} KidsOf(n: Node, forks: seq<Fork>)
      requires Valid() && n in trees && n.forks == Some(forks)
      ensures |forks| == |trees[n].edges|
      ensures forall i :: 0 <= i < |forks| ==> forks[i].node in trees && trees[forks[i].node] == trees[n].edges[i].tree
      ensures forall i :: 0 <= i < |forks| ==> forks[i].node in depth && depth[forks[i].node] == depth[n] + 1
    {
      assert NodeOk(n, trees, depth);
    }

    method EvictChild(n: Node, forks: seq<Fork>, i: nat, d: nat, limit: nat, ghost base: nat, ghost tree: Manifest,
        ghost v0: View)
      requires Valid() && n in trees && trees[n] == tree && depth[n] == base + d && SavedBelow(base + limit)
      requires n.forks == Some(forks) && i < |forks| && Cut(v0, base + limit, base + d)
      modifies trees.Keys`forks
      ensures |forks| == |tree.edges|
      ensures Valid() && Cut(v0, base + limit, base + d) && Gone(View(), forks[i].node, d, limit, tree.edges[i].tree)
      ensures Shrinks(View(), old(View())) && n.forks == Some(forks)
      decreases tree, 0, 0
    {
      hide AllOk, Trimmed, SavedBelow;
      KidsOf(n, forks);
      var child := forks[i].node;
      ghost var w := View();
      EvictWalk(child, d + 1, limit, base, tree.edges[i].tree);
      if d + 1 > limit {
        ghost var v := View();
        Saved(child, base + limit);
        Clear(child);
        TrimmedStays(View(), v, child, d + 1, limit, tree.edges[i].tree);
      }
    }

    lemma {:induction false} Saved(m: Node, bottom: nat)
      requires SavedBelow(bottom) && m in trees && m in depth && depth[m] > bottom
      ensures m.address.Some?
    {
    }

    lemma {:induction false} OnlyDeep(v: View, bottom: nat, above: nat)
      requires Cut(v, bottom, above) && trees.Keys == depth.Keys
      ensures forall m | m in trees :: m in v && (m.forks == v[m] || (m.forks.None? && depth[m] > bottom))
    {
      var w := View();
      forall m | m in trees
        ensures m in v && (m.forks == v[m] || (m.forks.None? && depth[m] > bottom))
      {
        assert w[m] == m.forks;
      }
    }

    /** Drops the loaded nodes below the limit, and only those; what every node stands for stays. */
    method EvictBelowDepth(n: Node, depthLimit: nat)
      requires Valid() && n in trees && SavedBelow(depth[n] + depthLimit)
      modifies trees.Keys`forks
      ensures Valid() && Trimmed(View(), n, 0, depthLimit, trees[n])
      ensures forall m | m in trees :: m.forks == old(m.forks) || (m.forks.None? && depth[m] > depth[n] + depthLimit)
      ensures forall m | m in trees && m.forks != old(m.forks) ::
              m.address == Some(Digest(trees[m])) &&
              (Backed() ==> m.address.value in store)
    {
      hide Cut, Trimmed, Closed, KidsOk, Filed;
      ghost var v0 := View();
      EvictWalk(n, 0, depthLimit, depth[n], trees[n]);
      OnlyDeep(v0, depth[n] + depthLimit, depth[n]);
      assert forall m | m in trees :: NodeOk(m, trees, depth);
    }

    /** What was evicted can be read again: an entry found after an eviction is the manifest's. */
    method ReadAfterEviction(n: Node, depthLimit: nat, path: Bytes) returns (ok: bool)
      requires Valid() && Backed() && n in trees && SavedBelow(depth[n] + depthLimit)
      modifies this`trees, this`depth, this`loads, trees.Keys`entry, trees.Keys`forks
      ensures ok && Valid() && Backed() && Extends(trees, depth, old(trees), old(depth))
      ensures Resolve(n, path) == Lookup(old(trees[n]), path)
    {
      hide AllOk, SavedBelow, Trimmed, Ready, Closed, Lookup;
      EvictBelowDepth(n, depthLimit);
      ghost var loaded;
      ok, loaded := HydrateSpine(n, path);
      SpineReadsManifest(n, path);
    }
  }
}
