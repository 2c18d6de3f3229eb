/** The three splices that build a new node from old ones, on objects. */
module PotOps {
  import opened Bits
  import opened Wrappers
  import opened Trie
  import opened PotNodes

  /** `n` is in memory and means what it holds. */
  ghost predicate Loaded(n: PotNode, trees: map<PotNode, Tree>)
    reads n
  {
    n in trees && ForksOk(n.forks, trees) && n.pinned.Some? &&
    trees[n] == Node(n.pinned.value, View(n.forks, trees))
  }

  method NewAt(at: int, n: PotNode, ghost trees: map<PotNode, Tree>) returns (c: CNode)
    requires Loaded(n, trees) && at >= -1
    ensures c.at == at && c.node == n && c.size == 1 + SizeFrom(trees[n].forks, at + 1)
  {
    ghost var v := View(n.forks, trees);
    var size := 1;
    var i := 0;
    while i < |n.forks|
      invariant 0 <= i <= |n.forks|
      invariant size == 1 + SizeFrom(v[..i], at + 1)
    {
      assert v[..i + 1][..i] == v[..i];
      if n.forks[i].at >= at + 1 {
        size := size + n.forks[i].size;
      }
      i := i + 1;
    }
    assert v[..i] == v;
    c := CNode(at, n, size);
  }

  method AppendRange(dst: PotNode, src: PotNode, from: int, to: int, ghost trees: map<PotNode, Tree>)
    requires dst != src && ForksOk(dst.forks, trees) && ForksOk(src.forks, trees)
    modifies dst`forks
    ensures ForksOk(dst.forks, trees)
    ensures View(dst.forks, trees) == Trie.AppendRange(View(old(dst.forks), trees), View(src.forks, trees), from, to)
  {
    hide Copy, ForksOk, View, Truncate;
    dst.Truncate(from, trees);
    ghost var v, kept := View(src.forks, trees), View(dst.forks, trees);
    ghost var added: seq<Trie.Fork> := [];
    NothingAdded(kept, v, from, to);
    var i := 0;
    while i < |src.forks|
      invariant 0 <= i <= |src.forks|
      invariant ForksOk(dst.forks, trees) && View(dst.forks, trees) == kept + added
      invariant added + Copy(v[i..], from, to) == Copy(v, from, to)
    {
      var c := src.forks[i];
      InView(src.forks, i, trees);
      CopyNext(v, i, from, to);
      if c.at >= from {
        if c.at >= to {
          break;
        }
        ViewMore(dst.forks, c, trees);
        dst.Append(c);
        OneAdded(kept, added, v[i], Copy(v[i + 1..], from, to));
        added := added + [v[i]];
      }
      i := i + 1;
    }
    assert i == |src.forks| ==> v[i..] == [];
    assert Copy(v[i..], from, to) == [];
    assert added + [] == added;
  }

  lemma NothingAdded(kept: seq<Trie.Fork>, v: seq<Trie.Fork>, from: int, to: int)
    ensures kept + [] == kept && v[0..] == v && [] + Copy(v[0..], from, to) == Copy(v, from, to)
    ensures Copy([], from, to) == []
  {
  }

  lemma OneAdded(kept: seq<Trie.Fork>, added: seq<Trie.Fork>, f: Trie.Fork, rest: seq<Trie.Fork>)
    ensures kept + added + [f] == kept + (added + [f]) && added + ([f] + rest) == added + [f] + rest
  {
  }

  lemma InView(fs: seq<CNode>, i: nat, trees: map<PotNode, Tree>)
    requires ForksOk(fs, trees) && i < |fs|
    ensures CNodeOk(fs[i], trees) && |View(fs, trees)| == |fs|
    ensures View(fs, trees)[i] == Trie.Fork(fs[i].at, trees[fs[i].node], fs[i].size)
  {
    assert fs[i] in fs;
  }

  lemma ViewMore(fs: seq<CNode>, c: CNode, trees: map<PotNode, Tree>)
    requires ForksOk(fs, trees) && CNodeOk(c, trees)
    ensures ForksOk(fs + [c], trees)
    ensures View(fs + [c], trees) == View(fs, trees) + [Trie.Fork(c.at, trees[c.node], c.size)]
  {
    assert forall x | x in fs :: CNodeOk(x, trees);
  }

  lemma CopyNext(v: seq<Trie.Fork>, i: nat, from: int, to: int)
    requires i < |v|
    ensures v[i].at < from ==> Copy(v[i..], from, to) == Copy(v[i + 1..], from, to)
    ensures from <= v[i].at < to ==> Copy(v[i..], from, to) == [v[i]] + Copy(v[i + 1..], from, to)
    ensures v[i].at >= from && v[i].at >= to ==> Copy(v[i..], from, to) == []
  {
    assert v[i..][1..] == v[i + 1..] && v[i..][0] == v[i];
  }

  lemma {:induction false} TruncatedBelow(fs: seq<Trie.Fork>, po: int)
    ensures forall f | f in Trie.Truncate(fs, po) :: f.at < po
  {
    if fs != [] { TruncatedBelow(fs[1..], po); }
  }

  lemma {:induction false} CopiedBelow(fs: seq<Trie.Fork>, from: int, to: int)
    ensures forall f | f in Copy(fs, from, to) :: f.at < to
  {
    if fs != [] { CopiedBelow(fs[1..], from, to); }
  }

  lemma AppendedBelow(dst: seq<Trie.Fork>, src: seq<Trie.Fork>, from: int, to: int)
    requires from <= to
    ensures forall f | f in Trie.AppendRange(dst, src, from, to) :: f.at < to
  {
    TruncatedBelow(dst, from);
    CopiedBelow(src, from, to);
  }

  lemma ViewBelow(fs: seq<CNode>, trees: map<PotNode, Tree>, p: int)
    requires ForksOk(fs, trees) && forall f | f in View(fs, trees) :: f.at < p
    ensures forall c | c in fs :: c.at < p
  {
    forall c | c in fs
      ensures c.at < p
    {
      var i :| 0 <= i < |fs| && fs[i] == c;
      assert View(fs, trees)[i] in View(fs, trees);
    }
  }

  method Wedge(acc: PotNode, n: PotNode, at: int, cut: int, ghost trees: map<PotNode, Tree>)
    requires acc != n && ForksOk(acc.forks, trees) && Loaded(n, trees)
    modifies acc`forks, acc`pinned
    ensures ForksOk(acc.forks, trees) && acc.pinned == n.pinned
    ensures View(acc.forks, trees) == Trie.Wedge(View(old(acc.forks), trees), trees[n], at, cut)
  {
    AppendRange(acc, n, at, cut, trees);
    AppendRange(acc, n, cut + 1, DEPTH, trees);
    acc.pinned := n.pinned;
  }

  /** `entry` is the pinned entry of the node spliced in at `p`. */
  method Whirl(acc: PotNode, n: PotNode, at: int, p: nat, entry: Option<Entry>, ghost trees: map<PotNode, Tree>)
    requires acc != n && ForksOk(acc.forks, trees) && Loaded(n, trees)
    modifies acc`forks, acc`pinned
    ensures ForksOk(acc.forks, trees) && acc.pinned == if entry.Some? then entry else old(acc.pinned)
    ensures View(acc.forks, trees) == Trie.Whirl(View(old(acc.forks), trees), trees[n], at, p)
    ensures at <= p ==> forall c | c in acc.forks && c.at == p :: c.node == n
  {
    AppendRange(acc, n, at, p, trees);
    var c := NewAt(p, n, trees);
    ghost var before := acc.forks;
    acc.Append(c);
    assert View(acc.forks, trees) == View(before, trees) + [Trie.NewAt(p, trees[n])];
    if at <= p {
      AppendedBelow(View(old(acc.forks), trees), trees[n].forks, at, p);
      ViewBelow(before, trees, p);
    }
    if entry.Some? {
      acc.pinned := entry;
    }
  }

  /** `m` is the node spliced in at `mAt`. */
  method Whack(acc: PotNode, n: PotNode, at: int, m: PotNode, mAt: nat, ghost trees: map<PotNode, Tree>)
    requires acc != n && acc != m && ForksOk(acc.forks, trees) && Loaded(n, trees) && Loaded(m, trees)
    modifies acc`forks, acc`pinned
    ensures ForksOk(acc.forks, trees) && acc.pinned == m.pinned
    ensures View(acc.forks, trees) == Trie.Whack(View(old(acc.forks), trees), trees[n], at, trees[m], mAt)
  {
    AppendRange(acc, n, at, mAt, trees);
    if mAt < DEPTH {
      var c := NewAt(mAt, n, trees);
      ghost var before := acc.forks;
      acc.Append(c);
      assert View(acc.forks, trees) == View(before, trees) + [Trie.NewAt(mAt, trees[n])];
    }
    AppendRange(acc, m, mAt + 1, DEPTH, trees);
    acc.pinned := m.pinned;
  }

  /** findFork without a stop condition. */
  method FindFork(n: PotNode, at: int, ghost trees: map<PotNode, Tree>) returns (m: CNode)
    requires ForksOk(n.forks, trees)
    ensures m == LastOf(n.forks, at)
    ensures match LastFork(View(n.forks, trees), at)
            case None => m.node == null
            case Some(f) => m in n.forks && m.node in trees && f == Trie.Fork(m.at, trees[m.node], m.size)
  {
    ghost var v := View(n.forks, trees);
    m := CNode(0, null, 0);
    var i := 0;
    while i < |n.forks|
      invariant 0 <= i <= |n.forks| && m == LastOf(n.forks[..i], at)
      invariant match LastFork(v[..i], at)
                case None => m.node == null
                case Some(f) => m in n.forks && m.node in trees && f == Trie.Fork(m.at, trees[m.node], m.size)
    {
      assert v[..i + 1][..i] == v[..i] && n.forks[..i + 1][..i] == n.forks[..i];
      if n.forks[i].at >= at {
        m := n.forks[i];
      }
      i := i + 1;
    }
    assert v[..i] == v && n.forks[..i] == n.forks;
  }

  method Slice(n: PotNode, from: int, to: int, ghost trees: map<PotNode, Tree>) returns (out: seq<CNode>)
    requires ForksOk(n.forks, trees)
    ensures ForksOk(out, trees) && View(out, trees) == Copy(View(n.forks, trees), from, to)
  {
    ghost var v := View(n.forks, trees);
    out := [];
    var i := 0;
    while i < |n.forks|
      invariant 0 <= i <= |n.forks|
      invariant ForksOk(out, trees) && View(out, trees) + Copy(v[i..], from, to) == Copy(v, from, to)
    {
      var c := n.forks[i];
      assert CNodeOk(c, trees);
      assert v[i..][1..] == v[i + 1..] && v[i..][0] == v[i];
      if c.at >= from {
        if c.at >= to {
          break;
        }
        ghost var before := out;
        out := out + [c];
        assert View(out, trees) == View(before, trees) + [v[i]];
      }
      i := i + 1;
    }
    assert Copy(v[i..], from, to) == [];
    assert View(out, trees) + [] == View(out, trees);
  }
}
