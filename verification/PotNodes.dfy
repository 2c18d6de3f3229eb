/** Trie nodes as objects: MemNode and SwarmNode, with the operations that fill a node in place. */
module PotNodes {
  import opened Bits
  import opened Wrappers
  import opened Trie
  import opened Store

  datatype CNode = CNode(at: int, node: PotNode?, size: int)

  class PotNode {
    var forks: seq<CNode>
    var pinned: Option<Entry>
    var ref: Option<Ref>

    constructor ()
      ensures forks == [] && pinned == None && ref == None
    {
      forks, pinned, ref := [], None, None;
    }

    /** A node that is known only by its reference. */
    constructor Packed(r: Ref)
      ensures forks == [] && pinned == None && ref == Some(r)
    {
      forks, pinned, ref := [], None, Some(r);
    }

    predicate NeedsUnpack()
      reads this
    {
      ref.Some? && pinned.None? && forks == []
    }

    method Append(c: CNode)
      modifies this`forks
      ensures forks == old(forks) + [c]
    {
      forks := forks + [c];
    }

    method Truncate(po: int, ghost trees: map<PotNode, Tree>)
      requires ForksOk(forks, trees)
      modifies this`forks
      ensures ForksOk(forks, trees) && View(forks, trees) == Trie.Truncate(View(old(forks), trees), po)
    {
      ghost var v := View(forks, trees);
      var j := 0;
      while j < |forks| && forks[j].at < po
        invariant 0 <= j <= |forks|
        invariant Trie.Truncate(v, po) == v[..j] + Trie.Truncate(v[j..], po)
      {
        assert v[j..][1..] == v[j + 1..];
        j := j + 1;
      }
      if j < |forks| {
        forks := forks[..j];
      }
      assert View(forks, trees) == v[..j];
      assert Trie.Truncate(v[j..], po) == [];
    }

    /** The fork at `po`, or an empty one. */
    method Fork(po: int, ghost trees: map<PotNode, Tree>) returns (c: CNode)
      requires ForksOk(forks, trees)
      ensures c.at == po && c == ForkOf(forks, po)
      ensures match ForkAt(View(forks, trees), po)
              case None => c.node == null && c.size == 0
              case Some(f) => c in forks && c.node in trees && f == Trie.Fork(c.at, trees[c.node], c.size)
    {
      ghost var v := View(forks, trees);
      var i := 0;
      while i < |forks|
        invariant 0 <= i <= |forks|
        invariant ForkAt(v, po) == ForkAt(v[i..], po) && ForkOf(forks, po) == ForkOf(forks[i..], po)
      {
        assert v[i..][1..] == v[i + 1..] && forks[i..][1..] == forks[i + 1..];
        if forks[i].at == po {
          return forks[i];
        }
        if forks[i].at > po {
          break;
        }
        i := i + 1;
      }
      c := CNode(po, null, 0);
    }
  }

  /** The first fork at `po`, or an empty one. */
  ghost function ForkOf(fs: seq<CNode>, po: int): CNode
  {
    if fs == [] || fs[0].at > po then CNode(po, null, 0)
    else if fs[0].at == po then fs[0]
    else ForkOf(fs[1..], po)
  }

  /** The last fork from `from` on, or an empty one. */
  ghost function LastOf(fs: seq<CNode>, from: int): CNode
  {
    if fs == [] then CNode(0, null, 0)
    else if fs[|fs| - 1].at >= from then fs[|fs| - 1]
    else LastOf(fs[..|fs| - 1], from)
  }

  /** Every fork leads to a node whose meaning is known and not empty. */
  ghost predicate ForksOk(fs: seq<CNode>, trees: map<PotNode, Tree>)
  {
    forall c | c in fs :: CNodeOk(c, trees)
  }

  ghost predicate CNodeOk(c: CNode, trees: map<PotNode, Tree>)
  {
    c.at >= 0 && c.size >= 0 && c.node != null && c.node in trees && trees[c.node].Node?
  }

  ghost function View(fs: seq<CNode>, trees: map<PotNode, Tree>): (r: seq<Trie.Fork>)
    requires ForksOk(fs, trees)
    ensures |r| == |fs|
    ensures forall i :: 0 <= i < |fs| ==> fs[i] in fs && r[i] == Trie.Fork(fs[i].at, trees[fs[i].node], fs[i].size)
  {
    seq(|fs|, i requires 0 <= i < |fs| => assert fs[i] in fs; Trie.Fork(fs[i].at, trees[fs[i].node], fs[i].size))
  }

  lemma {:induction false} ForkOfView(fs: seq<CNode>, po: int, trees: map<PotNode, Tree>)
    requires ForksOk(fs, trees)
    ensures var c := ForkOf(fs, po);
            match ForkAt(View(fs, trees), po)
            case None => c.node == null
            case Some(f) => c in fs && c.node in trees && c.at == po && f == Trie.Fork(c.at, trees[c.node], c.size)
  {
    if fs != [] && fs[0].at < po {
      ForkOfView(fs[1..], po, trees);
      assert View(fs, trees)[1..] == View(fs[1..], trees);
    }
  }

  lemma {:induction false} LastOfView(fs: seq<CNode>, from: int, trees: map<PotNode, Tree>)
    requires ForksOk(fs, trees)
    ensures var c := LastOf(fs, from);
            match LastFork(View(fs, trees), from)
            case None => c.node == null
            case Some(f) => c in fs && c.node in trees && f == Trie.Fork(c.at, trees[c.node], c.size)
    decreases |fs|
  {
    if fs != [] && fs[|fs| - 1].at < from {
      var n := |fs| - 1;
      LastOfView(fs[..n], from, trees);
      assert View(fs, trees)[..n] == View(fs[..n], trees);
    }
  }
}
