/** The proximity order trie as a value: what its nodes mean, and what each operation computes. */
module Trie {
  import opened Bits
  import opened Wrappers

  type Value = seq<bv8>

  datatype Entry = Entry(key: Key, value: Value)

  /** `Nil` stands for a null node and for one without a pinned entry. */
  datatype Tree = Nil | Node(entry: Entry, forks: seq<Fork>)

  datatype Fork = Fork(at: nat, tree: Tree, size: nat)

  // ---------------------------------------------------------------- meaning

  /** The entries seen by a reader who enters `t` at bit `at`: forks below `at` are stale. */
  ghost function Entries(t: Tree, at: nat): set<Entry>
    decreases t
  {
    match t
    case Nil => {}
    case Node(e, fs) => {e} + set f, x | f in fs && f.at >= at && x in ForkEntries(f) :: x
  }

  ghost function ForkEntries(f: Fork): set<Entry>
    decreases f
  {
    Entries(f.tree, f.at + 1)
  }

  ghost function Under(fs: seq<Fork>, at: nat): set<Entry>
  {
    set f, x | f in fs && f.at >= at && x in ForkEntries(f) :: x
  }

  ghost predicate Ordered(fs: seq<Fork>)
  {
    forall i, j :: 0 <= i < j < |fs| ==> fs[i].at < fs[j].at
  }

  ghost predicate Valid(t: Tree, at: nat)
    decreases t
  {
    t.Node? && Ordered(t.forks) &&
    forall f | f in t.forks && f.at >= at :: ForkOk(t.entry.key, f)
  }

  /** `f` may hang from a node with key `key`. */
  ghost predicate ForkOk(key: Key, f: Fork)
    decreases f
  {
    && f.tree.Node?
    && Splits(key, f.tree.entry.key, f.at)
    && (f.at == 0 ==> forall g | g in f.tree.forks :: g.at != 0)
    && Valid(f.tree, f.at + 1)
    && f.size == |ForkEntries(f)|
  }

  // ---------------------------------------------------------------- lists of forks

  /** MemNode.truncate */
  function Truncate(fs: seq<Fork>, po: int): seq<Fork>
  {
    if fs == [] || fs[0].at >= po then [] else [fs[0]] + Truncate(fs[1..], po)
  }

  /** The forks that appendRange copies. */
  function Copy(fs: seq<Fork>, from: int, to: int): seq<Fork>
  {
    if fs == [] then []
    else if fs[0].at < from then Copy(fs[1..], from, to)
    else if fs[0].at < to then [fs[0]] + Copy(fs[1..], from, to)
    else []
  }

  function AppendRange(dst: seq<Fork>, src: seq<Fork>, from: int, to: int): seq<Fork>
  {
    Truncate(dst, from) + Copy(src, from, to)
  }

  /** MemNode.fork */
  function ForkAt(fs: seq<Fork>, po: int): Option<Fork>
  {
    if fs == [] || fs[0].at > po then None
    else if fs[0].at == po then Some(fs[0])
    else ForkAt(fs[1..], po)
  }

  /** findFork without a stop condition: the last fork from `from` on. */
  function LastFork(fs: seq<Fork>, from: int): Option<Fork>
  {
    if fs == [] then None
    else if fs[|fs| - 1].at >= from then Some(fs[|fs| - 1])
    else LastFork(fs[..|fs| - 1], from)
  }

  function SizeFrom(fs: seq<Fork>, from: int): nat
  {
    if fs == [] then 0
    else SizeFrom(fs[..|fs| - 1], from) + if fs[|fs| - 1].at >= from then fs[|fs| - 1].size else 0
  }

  function NewAt(at: nat, t: Tree): Fork
    requires t.Node?
  {
    Fork(at, t, 1 + SizeFrom(t.forks, at + 1))
  }

  // ---------------------------------------------------------------- operations

  /** wedge with an empty `m` at position `cut`: the forks of `acc` afterwards. */
  function Wedge(acc: seq<Fork>, t: Tree, at: int, cut: int): seq<Fork>
    requires t.Node?
  {
    AppendRange(AppendRange(acc, t.forks, at, cut), t.forks, cut + 1, DEPTH)
  }

  function Whirl(acc: seq<Fork>, t: Tree, at: int, p: nat): seq<Fork>
    requires t.Node?
  {
    AppendRange(acc, t.forks, at, p) + [NewAt(p, t)]
  }

  function Whack(acc: seq<Fork>, t: Tree, at: int, m: Tree, mAt: nat): seq<Fork>
    requires t.Node? && m.Node?
  {
    var a := AppendRange(acc, t.forks, at, mAt);
    AppendRange(if mAt < DEPTH then a + [NewAt(mAt, t)] else a, m.forks, mAt + 1, DEPTH)
  }

  /** The entry found at `k`, searching from bit `at`. */
  function Find(t: Tree, at: nat, k: Key): Option<Entry>
    decreases t
  {
    if t.Nil? then None
    else
      var po := FirstDiff(t.entry.key, k, at);
      if po >= DEPTH then Some(t.entry)
      else match ForkAt(t.forks, po)
        case None => None
        case Some(c) => ForkAtIn(t.forks, po); Find(c.tree, po, k)
  }

  lemma ForkAtIn(fs: seq<Fork>, po: int)
    ensures ForkAt(fs, po).Some? ==> ForkAt(fs, po).value in fs && ForkAt(fs, po).value.at == po
  {
  }

  lemma LastForkIn(fs: seq<Fork>, from: int)
    ensures LastFork(fs, from).Some? ==> LastFork(fs, from).value in fs && LastFork(fs, from).value.at >= from
  {
  }

  /**
   * `loaded` says how many nodes of the chain of last forks below the removed node are in memory:
   * a packed node looks empty here, so the walk stops at it.
   */
  function Pull(acc: seq<Fork>, t: Tree, at: nat, loaded: nat): Tree
    requires t.Node?
  {
    var last := LastFork(t.forks, at);
    if loaded > 0 && last.Some? && last.value.tree.Node? then
      PullTail(Wedge(acc, t, at, last.value.at), last.value.tree, last.value.at + 1, loaded - 1)
    else PullLeaf(acc, at)
  }

  /** The parent of the removed node takes its place; without one the tree becomes empty. */
  function PullLeaf(acc: seq<Fork>, at: nat): Tree
  {
    var parent := ForkAt(acc, at - 1);
    if parent.None? || parent.value.tree.Nil? then Nil
    else Node(parent.value.tree.entry, Wedge(Truncate(acc, at - 1), parent.value.tree, at - 1, at - 1))
  }

  function PullTail(acc: seq<Fork>, t: Tree, at: nat, loaded: nat): Tree
    requires t.Node?
    decreases t
  {
    var last := LastFork(t.forks, at);
    LastForkIn(t.forks, at);
    if loaded > 0 && last.Some? && last.value.tree.Node? then
      PullTail(Whirl(acc, t, at, last.value.at), last.value.tree, last.value.at + 1, loaded - 1)
    else
      Node(t.entry, Wedge(acc, t, at, DEPTH))
  }

  /** updateInner: `None` is the null result, `Some(Nil)` an empty tree. */
  function UpdateInner(acc: seq<Fork>, t: Tree, at: nat, k: Key, e: Option<Entry>, loaded: nat): Option<Tree>
    decreases t
  {
    if t.Nil? then
      if e.None? then None else Some(Node(e.value, acc))
    else
      var po := FirstDiff(t.entry.key, k, at);
      if po >= DEPTH then
        if e.None? then Some(Pull(acc, t, at, loaded))
        else if e.value.value == t.entry.value then None
        else Some(Node(e.value, Whack(acc, t, at, Node(e.value, []), DEPTH)))
      else
        var c := ForkAt(t.forks, po);
        ForkAtIn(t.forks, po);
        if c.None? || c.value.tree.Nil? then
          if e.None? then None else Some(Node(e.value, Whirl(acc, t, at, po)))
        else if po == 0 then
          var r := UpdateInner(acc, c.value.tree, 0, k, e, loaded);
          if r.None? || r.value.Nil? then Some(Node(t.entry, Wedge([], t, 0, 0)))
          else Some(Node(t.entry, Whack([], r.value, -1, t, 0)))
        else
          UpdateInner(Whirl(acc, t, at, po), c.value.tree, po + 1, k, e, loaded)
  }

  function Update(t: Tree, k: Key, e: Option<Entry>, loaded: nat): Option<Tree>
  {
    UpdateInner([], t, 0, k, e, loaded)
  }
}
