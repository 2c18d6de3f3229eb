# A verified model of the Swarm storage core

This Dafny project models the parts of the repository that carry its data: the proximity order trie
(POT) and its persistence, the chunk-stream proxy and its pipelined client, the streaming Mantaray
save, hydrate and evict, the epoch feed publisher, and the chunk tree of the SQLite upload. It proves
what these parts are for, over every input, every interleaving and every run, and it pins down the
places where the code does something else.

`dafny verify dfyconfig.toml` checks everything.

## How it is organised

Each component has a layer of pure functions, or a state machine, whose laws are lemmas, and beside
it the code in its own imperative form: classes whose methods update fields, buffers and node lists in
place, proved to compute what the pure layer says.

- Keys and bits: `Bytes`, `ByteValues`, `Proximity`, `ByteBits`, `Bits`. Trie keys are strings of 256
  bits; `Proximity` proves that the byte loop of `PO` finds the first differing bit and that bits
  determine the key, and `RecordBytes` gives every key its bytes.
- The trie as a value: `Trie` (operations), `TrieLaws`, `TrieUpdate` (put and delete on a focus with an
  accumulator), `TrieMap` (refinement of a finite map), `TrieReload` (deletes on reloaded trees),
  `TrieIter` (ordered iteration). A node is read from a bit position on: forks below that position are
  stale and ignored. Validity is indexed by that position.
- The trie as shared, lazily loaded objects: `PotNodes`, `PotOps`, `PotMode`, `PotIter`, `Store`,
  `Persister`, `PotIndex`. A ghost arena maps every node object to the tree it stands for; nodes are
  filled in place, published once, shared between versions, unpacked on the way down and saved children
  first. Any read or write may fail: which requests the store answers is a parameter (`Requests`), and
  every call is shown to fail exactly if one of its own requests was not answered.
- The same trie under overlapping calls: `PotArena` (nodes as numbered cells, reads that arrive late,
  saves), `PotSplices` (what runs without waiting), `PotReads` (find and iterate cut at their awaits),
  `PotTasks` (update cut at its awaits), `IndexRuns` (one writer behind the mutex, any number of
  readers, every order of their steps), `PotProgress` and `IndexProgress` (nothing hangs: what calls
  still have to do shrinks with each of their steps), `IndexDurable` (what the store holds meanwhile).
- `NodeCodec`: the binary form of a trie node. `RecordBytes`: what references made of those bytes pin down.
- The chunk-stream proxy: `ProxySpec` (atomic steps with histories), `ProxySafety` (what holds in every
  run), `ProxyDelivery` (when the client is closed, that everything can be delivered, what the cache
  spares), `ProxySession` (the handlers as methods). Its client: `ChunkStream`.
- The manifest tree: `MantarayTree`, `SavePlan`, `SaveSchedule`, `SaveTree` (the save, one method per
  completion of an upload), `Manifests`, `Spine` (hydrate and evict).
- Swarm arithmetic: `Bmt`, `ChunkTree`, `FileUpload`, `Epochs`, `FeedPublisher`.

Where calls overlap, an await is a step boundary and a step runs from one await to the next:
`IndexRuns` and `ProxySpec` are state machines over such steps, `SaveTree.Saver` and
`ChunkStream.Stream` have one method for each, and what they claim holds for every order. The methods
of `PotMode`, `PotIter`, `PotIndex`, `Persister`, `Spine`, `FileUpload` and `FeedPublisher` are whole
calls, with all their awaits, that no other call on the same nodes overlaps. Digests in the trie store
and in manifests are ideal (equal digests, equal content), which `RecordBytes` justifies for the trie
up to a collision; there and in `Bmt`, `ChunkTree` and `FileUpload` the hash is an arbitrary function
and collisions are spelled out.

## Where the code falls short

1. Putting an equal value, or deleting an absent key, is a no-op, except when the key differs from the
   root key at bit 0 and fork 0 is occupied: the null result is then read as an emptied subtree, and
   fork 0 with everything below it is dropped (`ops.ts:82-88`). `TrieMap.UpdateIsExpectedIff` says when
   an update does what a caller expects, `TrieMap.RepeatedPutLosesAnEntry` is an input that loses data.
2. A delete looks at the children of the matched node without unpacking them (`ops.ts:113-114`). A
   packed child looks empty, and all that hangs below the matched node goes with it. On the specified
   tree `TrieReload.DeleteIsExpectedIff` gives the exact condition, on objects `PotIndex.Index.Update`
   (through `PotMode.Pot.Intact`, which can be read off the nodes before the call), and in runs
   `IndexRuns.UpdatesAreExact`. `TrieReload.DeleteLosesAnEntry` and `PotIndex.DeleteAfterReload` are
   inputs that lose data.
   A child can be packed again although it was in memory: `unpack` tests before it waits and fills
   without testing again (`swarm-pot.ts:42-47`, `swarm-node.ts:90-91`), so that of two reads of one
   node the later one puts fresh packed children in the place of the loaded ones.
   `IndexRuns.LateArrivalSpoilsDelete` shows a find doing this to a delete under way. No meaning
   changes by it, and finds, iterations and puts are not affected (`IndexRuns.Linearizable`,
   `IndexRuns.IterationsSeeOneTree`, `IndexRuns.UpdatesAreExact`).
3. Iteration with a prefix starts behind the fork right at the prefix's length and skips it
   (`pot.ts:108-112`, `:122`). `TrieIter.IterateCoversPrefixIff` says when every key with the prefix is
   visited, `TrieIter.IterateMissesAnEntry` is an input that misses one; `TrieIter.IterateEmits` says
   what is visited in any case.
4. In the pipelined client a frame that fails to leave the socket gives its slot to nobody
   (`swarm-ws.ts:135-143`). `ChunkStream.Stream.SendFailed` says exactly when that loses a wakeup: when
   the stream is live, someone waits, and the slots taken or promised were just `max`. No other event
   loses one. `ChunkStream.FailedFrameStrandsSender` strands a waiting sender on a live stream.
5. In the epoch arithmetic a previous timestamp of 0 also means "never" (`feed-epoch.ts:67`):
   `Epochs.NextIsDisjointIff` says when the next epoch is disjoint from the previous one,
   `Epochs.NextCoversTheFirst` is an input where it covers it. This concerns direct callers of `next`
   only: the publisher's hint is an epoch that contains the new time, so that `publishFeedUpdate` takes
   the other branch (`FeedPublisher.NextOnSpine`).
6. A page left over after a full node is wrapped in a node with a page's span, so a span does not tell a
   leaf from a node (`ChunkTree.LeftOverPageIsWrapped`); the reader here carries the level. An address
   does not tell how long a payload is either, whatever the hash (`ChunkTree.LoneNodeHasATwin`); the
   reader fills payloads up with zeros.
7. A read that fails on the way down a feed's spine counts as an epoch without an update
   (`feed-publisher.ts:95`), and the new update then overwrites one. The comment there calls an ancestor
   hint always safe (`feed-publisher.ts:79-82`). `FeedPublisher.Feed.Publish` and
   `FeedPublisher.DeepestIff` say exactly when the newest update is the deepest on its spine, where
   a walk down ends: when the epoch below it was vacant. `FeedPublisher.LostReadHidesNewest` is a
   sequence after which the walk ends at an older update.

## Model

| member | source | states |
|---|---|---|
| ByteBits.XorShowsDifference | packages/pot/src/elements/pot.ts:10-13 | bit j of the exclusive-or of two bytes is set exactly when the bytes differ in bit j, for all bytes |
| Proximity.PO | packages/pot/src/elements/pot.ts:7-17 | for byte strings of any lengths and any start, the result is the first position from the start on at which both have a bit and the bits differ, and the bit length of the second string if there is none |
| Proximity.BitsDetermineKey | packages/pot/src/elements/pot.ts:19-23 | byte strings with equal bits are equal, so a key may be taken for its bits |
| TrieLaws.SizeIsCardinality | packages/pot/src/elements/node.ts:4-11 | in a valid node the stored fork sizes from a position on add up, with the node itself, to the number of entries a reader sees from there |
| TrieLaws.KeysAreUnique | packages/pot/src/elements/ops.ts:51-105 | a valid node holds at most one entry for a key |
| TrieMap.FindRefines | packages/pot/src/elements/pot.ts:47-76 | find on a valid root returns the entry the map has for the key, and fails exactly when the map has none |
| TrieMap.SizeRefines | packages/pot/src/elements/node.ts:35-38 | the size of a valid root is the number of keys of its map |
| TrieUpdate.Rotate | packages/pot/src/elements/ops.ts:19-26 | whirl moves the focus into a child: the node left behind hangs validly from the accumulator, and no entry is lost or gained |
| TrieUpdate.PutInner | packages/pot/src/elements/ops.ts:51-81 | away from bit 0 a put returns null if the entry is there already, and otherwise a valid root with exactly the old entries, those of the key replaced by the new one |
| TrieUpdate.RemoveInner | packages/pot/src/elements/ops.ts:64-67 | away from bit 0 a delete returns null if it finds nothing, and otherwise a valid or empty root without the removed entries |
| TrieUpdate.PromoteLast | packages/pot/src/elements/ops.ts:113-116 | taking the last fork's child for the removed node: every copied fork still hangs at the bit where its keys leave the promoted key, and only the removed entry is gone |
| TrieUpdate.PullTailKeeps | packages/pot/src/elements/ops.ts:129-137 | the walk down the last forks terminates in a valid root with every entry it began with, wherever it stops |
| TrieUpdate.DropFocus | packages/pot/src/elements/ops.ts:117-126 | with nothing below the removed node its parent becomes the root, with the entries of the accumulator |
| TrieUpdate.PullRemoves | packages/pot/src/elements/ops.ts:108-127 | in memory exactly the matched entry goes; when the last child is packed, all entries the node stands for go |
| TrieMap.UpdateOutcome | packages/pot/src/elements/ops.ts:51-105 | an update that changes something leaves a valid root with exactly the entries it should; one that does not returns null, or leaves the root's side of bit 0 when its key lies across an occupied fork 0 |
| TrieMap.UpdateRefines | packages/pot/src/elements/ops.ts:39-105 | on maps: put and delete on a tree in memory give the expected map, or its half on the root's side of bit 0 in the one case above, and null is returned exactly for the other no-ops |
| TrieMap.UpdateIsExpectedIff | packages/pot/src/elements/ops.ts:82-88 | the map after an update is the expected one if and only if it is not a no-op across an occupied fork 0 |
| TrieMap.RepeatedPutLosesAnEntry | packages/pot/src/elements/ops.ts:82-88 | a two-entry tree in which putting the value that is already there loses it |
| TrieReload.DeleteOutcome | packages/pot/src/elements/ops.ts:108-137 | deleting a present key leaves a valid root with all entries but those removed, however much of the tree is in memory |
| TrieReload.DeleteIsExpectedIff | packages/pot/src/elements/ops.ts:113-114 | a delete of a present key takes out just that key if and only if the matched node's last child was found in memory, or the node has no fork from where the search entered it |
| TrieReload.DeleteLosesAnEntry | packages/pot/src/elements/ops.ts:113-126 | a reloaded two-entry tree in which deleting the root's key leaves nothing |
| TrieReload.BareIsMatch | packages/pot/src/elements/ops.ts:51-105 | along the way that the update takes, restarting at bit 0 below fork 0, the same nodes count as having nothing below them |
| TrieReload.UpdateStaysOk | packages/pot/src/elements/ops.ts:39-105 | every update leaves a valid root, and a put does not depend on what is in memory |
| TrieReload.AbsentIgnoresLoaded | packages/pot/src/elements/ops.ts:108-137 | deleting an absent key does not depend on what is in memory |
| TrieReload.UpdatedIs | packages/pot/src/elements/ops.ts:39-137 | puts, and deletes of absent keys, give the map they give in memory whatever is packed; so do deletes that found the last child |
| TrieIter.NearerAtSplit | packages/pot/src/elements/pot.ts:108-115 | of two keys, the one that agrees with the pivot at the bit that splits them has the smaller exclusive-or distance |
| TrieIter.WalkEmits | packages/pot/src/elements/pot.ts:92-117 | the walk terminates and emits each entry in view once, in strictly ascending exclusive-or distance from the pivot |
| TrieIter.FindNodeSharing | packages/pot/src/elements/pot.ts:119-124 | the located node has the prefix, and from behind the prefix it stands for just the keys that share that much with it; not found means that no key has the prefix |
| TrieIter.IterateEmits | packages/pot/src/elements/pot.ts:80-124 | with a full-length pivot, iterate emits, nearest first and once each, exactly the entries that share one bit more than the prefix with the located node |
| TrieIter.IterateCoversPrefixIff | packages/pot/src/elements/pot.ts:108-122 | all entries with the prefix are emitted if and only if the located node has no fork right at the prefix's length |
| TrieIter.IterateMissesAnEntry | packages/pot/src/elements/pot.ts:108-122 | a two-entry tree in which iterating from the root with the empty prefix misses an entry |
| TrieIter.EmitIsPrefix | packages/pot/src/elements/pot.ts:106-115 | what the callback sees is the walk up to and including the first entry at which it returns true |
| TrieIter.WalkIsList | packages/pot/src/elements/pot.ts:112-115 | going through the list of forks from its end is the walk, and every element is smaller or entered later, which is why the recursion ends |
| PotNodes.PotNode.Truncate | packages/pot/src/elements/node.ts:52-59 | in place: the fork list becomes its part below the position |
| PotNodes.PotNode.Fork | packages/pot/src/elements/node.ts:40-46 | returns the fork at the position, or an empty one if there is none |
| PotOps.NewAt | packages/pot/src/elements/node.ts:4-11 | the size it computes is one more than the sizes of the forks behind the position |
| PotOps.AppendRange | packages/pot/src/elements/pot.ts:26-35 | in place: the destination is cut and receives just the source's forks of the range |
| PotOps.Wedge | packages/pot/src/elements/ops.ts:9-16 | in place: the accumulator gets the node's forks without the cut position, and its entry |
| PotOps.Whirl | packages/pot/src/elements/ops.ts:19-26 | in place: the accumulator gets the node's forks below the position, the node itself at it, and the other node's entry |
| PotOps.Whack | packages/pot/src/elements/ops.ts:29-37 | in place: the accumulator gets the node below the position, the other node's forks behind it, and the other node's entry |
| PotOps.FindFork | packages/pot/src/elements/pot.ts:128-139 | without a stop condition it returns the last fork from the position on |
| PotOps.Slice | packages/pot/src/elements/pot.ts:37-45 | returns just the forks of the range, in order |
| Store.PutKeepsClosed | packages/pot/src/persister/persister.ts:53-60 | writing a record whose children are stored keeps everything reachable in the store, and only adds to it |
| Store.ResolveInjective | packages/pot/src/persister/persister.ts:37-39 | a tree has one reference: references that stand for equal trees are equal |
| Requests.NoneUnanswered | packages/pot/src/persister/persister.ts:1-4 | the count by which every call above the store is judged is zero exactly if the store answered all requests |
| PotMode.Pot.Unpack | packages/pot/src/elements/swarm-pot.ts:42-47 | undisturbed, a packed node gets in memory what its reference stands for, with packed children; no other node changes and every node keeps its meaning; it makes one request, or none for a node in memory, and fails, changing nothing, exactly if that request is not answered |
| PotMode.Pot.Arrive | packages/pot/src/elements/swarm-node.ts:90-121 | a read that arrives at a node, filled already or not, leaves entry and meaning of every node as they are and packed children in the node |
| PotMode.Pot.MakeStubs | packages/pot/src/elements/swarm-node.ts:104-113 | the children of a loaded record are new packed nodes that stand for the stored subtrees |
| PotMode.Pot.Open | packages/pot/src/elements/swarm-pot.ts:49-54 | the new root stands for the tree of the reference; it fails exactly if the read does, and the old root stays |
| PotMode.Pot.FindNext | packages/pot/src/elements/pot.ts:67-76 | it reports a match exactly when the node holds the key, or returns the node's fork towards the key in memory, having unpacked at most that child; it fails exactly if that read does |
| PotMode.Pot.Find | packages/pot/src/elements/pot.ts:51-60 | on a partly loaded tree the answer is that of the whole tree, nodes on the search path are the only ones unpacked, and packed siblings stay packed; it fails if and only if a read of its own does, and with everything in memory it makes none |
| PotMode.Pot.PullTail | packages/pot/src/elements/ops.ts:129-137 | on shared objects: the result stands for the specified promotion, and no published node is written to |
| PotMode.Pot.Pull | packages/pot/src/elements/ops.ts:108-127 | the result stands for the specified removal, and the last child counts as found exactly when the node has none from there on or its node was in memory before the call |
| PotMode.Pot.PullLeaf | packages/pot/src/elements/ops.ts:118-126 | the parent is promoted, or an empty pot returned |
| PotMode.Pot.UpdateInner | packages/pot/src/elements/ops.ts:51-105 | on shared, partly loaded objects the result stands for the specified tree; every old node keeps its meaning, only packed nodes on the descent are touched, all new nodes are fresh, a delete finds the last child exactly when the nodes were intact along its way before the call, and the call fails if and only if a read of its own does |
| PotMode.Pot.IntactStep | packages/pot/src/elements/ops.ts:63-104 | whether a delete will find the last child in memory is decided by the child that it enters next |
| PotMode.Pot.IntactPacked | packages/pot/src/elements/swarm-pot.ts:42-47 | at a node that was just read, a delete will find what it needs exactly when nothing hangs below the node that holds the key |
| PotMode.Pot.JoinAtZero | packages/pot/src/elements/ops.ts:82-97 | the root with its fork 0 replaced by the updated subtree, or without it when the subtree came back empty |
| Persister.Put | packages/pot/src/persister/persister.ts:53-60 | the store only grows, stays closed, and holds the record afterwards; it fails exactly if its request is not answered, and then changes nothing |
| Persister.Marshal | packages/pot/src/persister/persister.ts:31 | the digest of the record stands for the node's tree, and all it refers to is stored |
| Persister.SaveChildren | packages/pot/src/persister/persister.ts:28-30 | after success every child has a reference; references are only added; it fails if and only if a write of its own does |
| Persister.Save | packages/pot/src/persister/persister.ts:25-35 | it terminates, only grows the store, and after success all that is reachable from the node's reference is stored and stands for the node's tree; it fails if and only if a write of its own does; saving a saved node changes and writes nothing |
| PotIter.IterateInner | packages/pot/src/elements/pot.ts:92-117 | on partly loaded objects the callback sees just what the walk over the whole tree emits until it stops; if and only if a read of its own fails it sees only a beginning of that; nodes in memory are not written to, and with everything in memory there are no reads |
| PotIter.ListForks | packages/pot/src/elements/pot.ts:108-112 | the list has the forks before the pivot's, the node behind the pivot's bit, and the pivot's fork |
| PotIndex.Index.Create | packages/pot/src/index.ts:23-25 | a new index is the empty map |
| PotIndex.Index.Over | packages/pot/src/index.ts:27-31 | an index over a loaded root stands for the loaded tree |
| PotIndex.Index.Size | packages/pot/src/index.ts:63-66 | the number of keys of the map, 0 when closed |
| PotIndex.Index.Find | packages/pot/src/index.ts:49-52 | returns the map's value for every present key and not-found for every absent one, refuses exactly when closed, and otherwise fails if and only if a read of its own does, which it has none of with everything in memory; the map stays as it is |
| PotIndex.Index.Iterate | packages/pot/src/index.ts:54-61 | the callback sees the specified walk up to where it stops, or a beginning of it if and only if a read of the call fails; the map stays as it is |
| PotIndex.Index.Save | packages/pot/src/index.ts:68-74 | the reference returned stands for the index's tree and everything below it is stored; it fails if and only if the index is empty or a write of the call fails |
| PotIndex.Index.Update | packages/pot/src/index.ts:41-47 | after success the map is the expected one for puts and for absent keys (with the exception of finding 1), and a delete of a present key takes out just that key if and only if the nodes were intact along its way before the call; a new root is empty or has a reference that stands for the index's tree, all of it in the store; the call fails if and only if a read or a write of its own does, and then the root is the old one; nothing reachable from the old root changes, and the mode's root stands for the same tree as the index's |
| PotIndex.DeleteAfterReload | packages/pot/src/index.ts:27-47 | put two keys, save, open, delete the key at the root: the map is empty, for every store that answers all requests |
| PotIndex.UpdateMode | packages/pot/src/elements/swarm-pot.ts:62-66 | the new version is saved before it becomes the root: it is empty, or its reference stands for the specified tree and leads to all of it in the store; if a read or a write fails, and only then, the call does, and the old root stays |
| PotIndex.PackRoot | packages/pot/src/elements/swarm-pot.ts:37-40 | what it installs as the root is empty or is stored in full under its reference; it fails, leaving the root, if and only if a write does |
| PotIndex.LocateNode | packages/pot/src/elements/pot.ts:119-124 | on objects: finds the node that the specification locates, unpacking what it passes; it fails if and only if a read of its own does |
| PotArena.ArriveOk | packages/pot/src/elements/swarm-node.ts:90-121 | on cells: a read that arrives, early or late, keeps the memory well formed and every cell's meaning, entry and reference |
| PotArena.LateArrivalUnloads | packages/pot/src/elements/swarm-pot.ts:42-47 | a read that arrives at a cell in memory leaves its last child packed, wherever it had one |
| PotArena.StampOk | packages/pot/src/persister/persister.ts:25-35 | on cells: saving a cell whose children are saved gives it a reference that stands for what the cell stands for |
| PotSplices.PulledIs | packages/pot/src/elements/ops.ts:108-137 | on cells: the removal, with whatever is in memory when it runs, is the specified one |
| PotReads.FindStepOk | packages/pot/src/elements/pot.ts:51-76 | from one await of find to the next the answer still to be found is that of the tree it began with |
| PotReads.ListStepOk | packages/pot/src/elements/pot.ts:92-117 | from one await of iterate to the next, what the callback has seen and what is still to come add up to the walk of the tree it began with |
| PotReads.TurnStepOk | packages/pot/src/elements/pot.ts:108-115 | putting a fork's list in its place changes nothing about what is still to come, even if the node was filled again meanwhile |
| PotTasks.LookLoaded | packages/pot/src/elements/ops.ts:58-63 | the update at a node in memory, up to its await, stays on its way to the specified result |
| PotTasks.ReadOk | packages/pot/src/elements/swarm-pot.ts:42-47 | so it does when the child that it waits for is read |
| PotTasks.MatchOk | packages/pot/src/elements/ops.ts:64-74 | and when it removes or replaces the matched node |
| PotTasks.CrossOk | packages/pot/src/elements/ops.ts:82-83 | and when it descends below fork 0, with the node above waiting for the result |
| PotTasks.DescendOk | packages/pot/src/elements/ops.ts:103-104 | and when the child becomes the focus |
| PotTasks.JoinOk | packages/pot/src/elements/ops.ts:84-97 | and when the node that waited gets its new fork 0, or loses it |
| PotTasks.ReachIs | packages/pot/src/elements/ops.ts:113-114 | the removal finds the last child exactly when there is none from there on or its cell is in memory at that moment |
| PotProgress.LookAhead | packages/pot/src/elements/ops.ts:58-63 | looking at a node brings an update nearer to its end, by a number made of the height of the tree below it, the calls that wait and the nodes not yet saved |
| PotProgress.ActAhead | packages/pot/src/elements/ops.ts:64-104 | so does every step after the look-up: a removal, a replacement, a new fork, a descent |
| PotProgress.JoinAhead | packages/pot/src/elements/ops.ts:84-97 | so does the return to a node that waits |
| PotProgress.SomeSavable | packages/pot/src/persister/persister.ts:25-35 | at or below a node without a reference there is one all of whose children have references |
| PotProgress.ListIsLess | packages/pot/src/elements/pot.ts:108-115 | the list of forks that takes the place of a fork emits the same entries and yet has less to do |
| PotProgress.ContinueAhead | packages/pot/src/elements/pot.ts:51-117 | every step of a find or an iteration brings it nearer to its end, and none makes it give up |
| IndexRuns.StepKeepsInv | packages/pot/src/mutex.ts:5-17 | every step of every interleaving of updates, finds, iterations and late reads keeps: writers that left come first, at most one is inside and on its way to the specified tree, every reader is on its way to the answer of the tree it began with, and every node keeps its meaning |
| IndexRuns.RunKeepsInv | packages/pot/src/mutex.ts:5-17 | so does every run, failed updates and failed reads included |
| IndexRuns.RealTime | packages/pot/src/index.ts:5-10 | a read that starts later has seen every writer that had left, one that started earlier none that left later; nodes keep their meaning from any state of a run to any later one |
| IndexRuns.Linearizable | packages/pot/src/index.ts:41-52 | in every run writes take effect one at a time in the order of the calls, the root stands for what they give one after the other, and a find answers for the tree of the writers that had left when it started: of all that left before, and of none that left later |
| IndexRuns.UpdatesAreExact | packages/pot/src/index.ts:41-47 | in every run a failed update does nothing, a put and a delete of an absent key do what they do in memory, and a delete of a present key takes out just that key if and only if in none of its steps it removed the key from a node whose last child was not in memory |
| IndexRuns.PulledWhen | packages/pot/src/elements/ops.ts:113-114 | a writer has found its last child packed exactly when one of the steps of the run did so |
| IndexRuns.LateArrivalSpoilsDelete | packages/pot/src/elements/swarm-pot.ts:42-47 | whenever a delete is about to remove its key from a node with a child and a find waits for that node, the read may arrive first, and then the delete finds the child packed |
| IndexRuns.IterationsSeeOneTree | packages/pot/src/index.ts:54-61 | in every run an iteration has at every moment shown its callback a beginning of the walk of the tree that the writers it has seen give, and all of it once it has ended without being stopped; not found means that no key there has the prefix |
| IndexRuns.ClosedForGood | packages/pot/src/index.ts:42 | in every run a closed index stays closed, and no update, find or iteration starts any more |
| IndexProgress.OwnStepEnabled | packages/pot/src/mutex.ts:11-16 | in every reachable state the writer inside the mutex can take a step of its own: its update goes on, a read arrives, a node is saved, or it leaves with its update applied |
| IndexProgress.WriterGetsOut | packages/pot/src/mutex.ts:11-16 | in every run a writer that is inside has left before it has taken more steps of its own than a number fixed when it is looked at, whatever the others do, and it leaves by finishing or by a failed read or write |
| IndexProgress.FailureReleases | packages/pot/src/mutex.ts:12-16 | whenever a read or a write of the writer inside fails, it leaves with the root as it was, and the next writer can enter |
| IndexProgress.ReadMayFail | packages/pot/src/elements/swarm-pot.ts:42-47 | whatever read a find or an iteration waits for may be refused, and then it gives up |
| IndexProgress.AllCanLeave | packages/pot/src/mutex.ts:5-17 | from every reachable state of every run, by steps of the writers alone, every update that was called is carried out in turn and applied |
| IndexProgress.UpdatesCanApply | packages/pot/src/index.ts:41-47 | at every reachable state of an open index an update can be called, and can be applied after all earlier ones |
| IndexProgress.ReadLowers | packages/pot/src/index.ts:49-61 | every step of a find or an iteration brings it nearer to its end, and no step of another call takes it further away |
| IndexProgress.GivesUpWhenRefused | packages/pot/src/elements/swarm-pot.ts:42-47 | in every run a find or an iteration gives up if and only if a read of its own was refused |
| IndexProgress.CallbackStops | packages/pot/src/elements/pot.ts:106-115 | a step shows the callback at most one entry, and stops the iteration exactly if the callback answers true to it |
| IndexProgress.ReadsCanEnd | packages/pot/src/index.ts:49-61 | at every reachable state of an open index a find can be asked and can end with the answer of the root of that moment, and an iteration with its walk |
| IndexDurable.StepHeld | packages/pot/src/persister/persister.ts:25-35 | every step keeps all that cells refer to in the store, and only adds to the store |
| IndexDurable.Durable | packages/pot/src/elements/swarm-pot.ts:62-66 | at every moment of every run a root that a writer has put there is empty, or has a reference under which the store holds the tree of the updates applied so far, all of it |
| NodeCodec.SetBitAt | packages/pot/src/elements/swarm-node.ts:48-54 | setting a bit of the bitmap changes that bit and no other |
| NodeCodec.BitmapBits | packages/pot/src/elements/swarm-node.ts:59-60 | a bit of the bitmap is set exactly when a fork hangs there |
| NodeCodec.PositionsFound | packages/pot/src/elements/swarm-node.ts:97-102 | reading the bitmap back gives the fork positions in order |
| NodeCodec.Uint32RoundTrip | packages/pot/src/elements/swarm-node.ts:64-65 | a size below 2^32 survives its four big-endian bytes |
| NodeCodec.RoundTrip | packages/pot/src/elements/swarm-node.ts:39-121 | for every node with a 32-byte key, ascending positions below 256, 32-byte references and sizes below 2^32, decoding the encoding gives key, positions, references, sizes and value back |
| NodeCodec.EncodedLayout | packages/pot/src/elements/swarm-node.ts:76-87 | byte for byte: the key at 0, at 32 the bitmap with the bit of weight 2^(7 - p % 8) in byte p / 8 for position p, at 64 the references, then the sizes, four bytes each, most significant first, filled up to a multiple of 32, then the value |
| NodeCodec.DecodedLayout | packages/pot/src/elements/swarm-node.ts:90-121 | on every buffer long enough for its bitmap the parts are read from these places; a buffer with forks that ends before the last size is an error, and nothing else is |
| NodeCodec.MarshalForks | packages/pot/src/elements/swarm-node.ts:59-66 | the bitmap buffer, references and sizes are those of the forks; it fails exactly when a child has no reference |
| NodeCodec.MarshalBinary | packages/pot/src/elements/swarm-node.ts:39-88 | nothing for a node without an entry, an error exactly for a wrong key size, an unreferenced child or references too long to fit, and otherwise the encoding, with zeros behind it where references are short |
| NodeCodec.RefsFit | packages/pot/src/elements/swarm-node.ts:76 | references of 32 bytes fit exactly, so that nothing stands behind the encoding |
| NodeCodec.UnmarshalBinary | packages/pot/src/elements/swarm-node.ts:90-121 | on every buffer, malformed ones included, the loops compute the decoding that RoundTrip and DecodedLayout are about |
| RecordBytes.KeyBytesHaveBits | packages/pot/src/elements/swarm-node.ts:43-44 | the bytes written for a key have its bits |
| RecordBytes.BytesPinRef | packages/pot/src/persister/persister.ts:53-60 | references made by hashing a node's bytes: if two are equal the records below them are, all the way down, or two different strings among those hashed for them have one digest |
| ProxySafety.EventKeepsInv | packages/proxy/src/ws-proxy.ts:116-260 | every client frame, ack, drop, reconnect and close keeps the queue and the histories in step |
| ProxySafety.RunKeepsInv | packages/proxy/src/ws-proxy.ts:116-260 | so does every run |
| ProxySafety.EndToEnd | packages/proxy/src/ws-proxy.ts:116-152 | in every run the i-th ack to the client is for its i-th frame, acks and queue add up to the frames received while the client is open, every acknowledged frame was acknowledged by upstream under this batch (or cached because it was), and only such hashes are cached |
| ProxySafety.QueueShape | packages/proxy/src/ws-proxy.ts:183-260 | in every run the head is not a hit, no acknowledged entry remains, sent entries precede pending ones, an open upstream leaves none pending, and the frames sent on the connection are those acknowledged on it and then the queue's sent ones in order |
| ProxySafety.AllAcknowledged | packages/proxy/src/ws-proxy.ts:124-130 | once an open upstream has acknowledged all it was sent, the queue is empty and an open client has an ack for every frame |
| ProxySafety.HeadIsSent | packages/proxy/src/ws-proxy.ts:125 | the oldest unacknowledged frame of the connection is the head of the queue |
| ProxyDelivery.OpenAfter | packages/proxy/src/ws-proxy.ts:132-209 | an event closes an open client exactly if the client leaves, no connection can be made, or upstream drops with nothing left unacknowledged; none opens it again |
| ProxyDelivery.OpenAndServed | packages/proxy/src/ws-proxy.ts:132-152 | in every run the client is open at the end if and only if no event of the run closed it; it then has in order the acks of all frames that are not waiting, and of all frames once an open upstream has acknowledged what it was sent |
| ProxyDelivery.CanDeliver | packages/proxy/src/ws-proxy.ts:145-189 | in every state in which an open client waits for something, a new connection if need be, the replay and its acks bring the client an ack for every frame |
| ProxyDelivery.EventCaches | packages/proxy/src/ws-proxy.ts:211-225 | every event keeps: with a cache, every frame that has left the queue is in it; without one there are no hits |
| ProxyDelivery.CacheSpares | packages/proxy/src/ws-proxy.ts:238-259 | in every run a frame goes out as it comes if and only if upstream is open and it is not a hit, and a hit is never sent on any connection; with a cache, every frame that has left the queue is in it, acknowledged misses too |
| ProxySession.Session.DrainQueue | packages/proxy/src/ws-proxy.ts:211-225 | the loop takes the resolved entries off the head, caching and acknowledging as the step says |
| ProxySession.Session.OnClientMessage | packages/proxy/src/ws-proxy.ts:227-260 | the handler is the client-frame step and keeps the invariant |
| ProxySession.Session.OnUpstreamMessage | packages/proxy/src/ws-proxy.ts:116-130 | the handler is the ack step and keeps the invariant |
| ProxySession.Session.OnUpstreamClose | packages/proxy/src/ws-proxy.ts:132-152 | the handler is the drop step: what was in flight waits to be sent again, and an open client is closed exactly if every frame had been acknowledged |
| ProxySession.Session.OnConnected | packages/proxy/src/ws-proxy.ts:177-189 | the handler is the reconnect step: everything waiting is replayed in queue order |
| ProxySession.Session.OnUpstreamClosing | packages/proxy/src/ws-proxy.ts:239-257 | the handler is the step in which the socket leaves its open state, so that frames wait although no drop was reported yet |
| ProxySession.Session.OnClientClose | packages/proxy/src/ws-proxy.ts:266-283 | the handler is the client-close step |
| ChunkStream.Stream.Call | packages/era/src/swarm-ws.ts:118-123 | a chunk of more than 4104 bytes is refused; otherwise the sender waits exactly when all slots are taken on a live stream |
| ChunkStream.Stream.CheckSlot | packages/era/src/swarm-ws.ts:167-172 | a woken sender waits again exactly when all slots are taken on a live stream |
| ChunkStream.Stream.Proceed | packages/era/src/swarm-ws.ts:125-144 | on a live stream the frame goes out last in line; on a failed or closed one the send is rejected; no wakeup is lost |
| ChunkStream.Stream.SendFailed | packages/era/src/swarm-ws.ts:135-143 | a frame that failed is taken out and its send rejected, the others stay in order; where no wakeup was lost before, one is lost if and only if the stream is live, someone waits, and the slots taken or promised were just the bound |
| ChunkStream.Stream.OnAck | packages/era/src/swarm-ws.ts:182-190 | the oldest send on the wire resolves and the first in the queue wakes, everything else stays; an ack too many fails the stream; no wakeup is lost |
| ChunkStream.Stream.Fail | packages/era/src/swarm-ws.ts:206-216 | everything on the wire is rejected and everyone who waits is woken, settled sends stay settled; a second failure does nothing |
| ChunkStream.Stream.OnError | packages/era/src/swarm-ws.ts:174-204 | after an error frame or a socket error the stream has failed, with nothing on the wire and nobody waiting |
| ChunkStream.Stream.OnClose | packages/era/src/swarm-ws.ts:192-200 | after a close what was on the wire is rejected, the stream having failed for it, and everyone who waited is woken |
| ChunkStream.Stream.AcksAreFifo | packages/era/src/swarm-ws.ts:182-189 | the n-th ack resolves the n-th of the sends whose frames did not fail |
| ChunkStream.Stream.NobodyStranded | packages/era/src/swarm-ws.ts:167-190 | a sender waits on a live stream with a slot neither taken nor promised only after a frame failed in the one situation that loses a wakeup |
| ChunkStream.Stream.SomethingMoves | packages/era/src/swarm-ws.ts:167-190 | on a live stream with at least one slot on which no wakeup was lost, an unsettled send means that an ack is due or that some sender is about to run on |
| ChunkStream.Stream.NothingForgotten | packages/era/src/swarm-ws.ts:128-144 | every unsettled send is on the wire, in the queue or about to run on, and on a failed stream about to be rejected |
| ChunkStream.FailedFrameStrandsSender | packages/era/src/swarm-ws.ts:135-143 | two sends after which a sender waits on a live stream with nothing on the wire and nobody on the way |
| MantarayTree.CleanTree | packages/mantaray-stream/src/save.ts:37-42 | if what hangs below clean nodes is clean, a clean root means a clean tree, so the walk may skip it |
| SavePlan.ChildWalked | packages/mantaray-stream/src/save.ts:43-45 | walking one more dirty child records just its dirty nodes, each under its parent, and keeps what was recorded |
| SavePlan.NodeWalked | packages/mantaray-stream/src/save.ts:48-50 | recording the node after its children: its counter is the number of its dirty children, and exactly the dirty leaves are ready |
| SaveTree.Saver.Walk | packages/mantaray-stream/src/save.ts:36-51 | the walk records every dirty node of the tree once, with its parent and the number of its dirty children, and nothing else |
| SaveSchedule.StartedOk | packages/mantaray-stream/src/save.ts:69-71 | a node that is started was never started before, and all its dirty children are saved |
| SaveSchedule.FinishedOk | packages/mantaray-stream/src/save.ts:91-96 | finishing a node keeps all counters equal to the dirty children not yet saved, and queues its parent exactly when these are none |
| SaveSchedule.LostOk | packages/mantaray-stream/src/save.ts:72-77 | losing an upload keeps the account of started nodes |
| SaveSchedule.AllSaved | packages/mantaray-stream/src/save.ts:79-81 | when nothing is in flight, nothing queued and nothing lost, every dirty node is saved |
| SaveTree.Saver.constructor | packages/mantaray-stream/src/save.ts:23-61 | from any tree in which clean implies clean below, the call starts in a valid state; for a clean root it is over at once |
| SaveTree.Saver.Launch | packages/mantaray-stream/src/save.ts:70-72 | the node taken from the queue was not serialised before, and every child has its address at that moment |
| SaveTree.Saver.StartNext | packages/mantaray-stream/src/save.ts:68-82 | uploads start until the bound or the end of the queue is reached, each with all its children addressed, and none after a failure; it resolves only when all is over, and otherwise something is in flight |
| SaveTree.Saver.Complete | packages/mantaray-stream/src/save.ts:84-99 | in any order of completions the node gets its address, its parent's counter goes down, and the invariant holds: clean stays closed downwards, counters exact, in-flight uploads within the bound and, unless the queue is empty, at it; after a failure nothing more goes out |
| SaveTree.Saver.Fail | packages/mantaray-stream/src/save.ts:72-77 | a failed upload ends the call, starts nothing, and keeps the invariant |
| SaveTree.Saver.CountersExact | packages/mantaray-stream/src/save.ts:92-95 | at every step a dirty node's counter is the number of its forks that have no address yet |
| SaveTree.Saver.SerialisedOnce | packages/mantaray-stream/src/save.ts:70-85 | at every step no node was serialised twice or before its children had addresses, only dirty ones were, and the in-flight bound holds |
| SaveTree.Saver.ResolvesWhenClean | packages/mantaray-stream/src/save.ts:79-81 | the call resolves only when every node has an address, each dirty node having been serialised |
| SaveTree.Saver.KeepsMoving | packages/mantaray-stream/src/save.ts:69-79 | with a positive bound an unfinished call has a dirty node in flight, and either the bound is used up or every dirty node whose children have addresses has been sent out |
| SaveTree.Saver.CanRetry | packages/mantaray-stream/src/save.ts:37-51 | at every step, after a failure too, the tree meets what a new call needs |
| SaveTree.Saver.Result | packages/mantaray-stream/src/save.ts:104-109 | a resolved call returns the root's address |
| Manifests.CommonPrefixLength | packages/mantaray-stream/src/spine.ts:86-91 | the loop finds how long the two begin alike |
| Spine.Mantaray.Deserialise | packages/mantaray-stream/src/spine.ts:3-8 | a loaded node's children are new stubs whose entry is their reference and which have no address |
| Spine.Mantaray.StampStubs | packages/mantaray-stream/src/spine.ts:40-45 | stamping makes every stub stand for its subtree; no other node changes |
| Spine.Mantaray.LoadAndStub | packages/mantaray-stream/src/spine.ts:33-46 | after a load the node's forks are there and every node stands for the same tree as before; a missing chunk changes nothing; where all addresses in memory are stored it succeeds, and they still are |
| Spine.Mantaray.HydrateSpine | packages/mantaray-stream/src/spine.ts:55-84 | it terminates; every node stands for the same tree as before; what it loads are nodes of the path's descent, downwards and each once, also when it fails, and nothing else changes; it succeeds exactly when every node of the descent then has its forks or has none to load, and always when all addresses in memory are stored |
| Spine.Mantaray.SpineReadsManifest | packages/mantaray-stream/src/spine.ts:48-54 | on a hydrated spine the entry found in memory at the end of the path is the one the manifest maps the path to |
| Spine.Mantaray.EvictWalk | packages/mantaray-stream/src/evict.ts:17-28 | the walk drops forks of saved nodes below the limit only, and leaves nothing below the limit loaded that can be reached |
| Spine.Mantaray.EvictBelowDepth | packages/mantaray-stream/src/evict.ts:13-15 | when the nodes below the limit are saved, exactly these may lose their forks, those still reachable have, every node that lost them has its tree's address, in the store if the addresses are, and every node stands for the same tree as before |
| Spine.Mantaray.ReadAfterEviction | packages/mantaray-stream/src/evict.ts:1-6 | with all addresses stored, the spine of any path can be loaded again after an eviction, and the entry found at its end is the manifest's |
| Bytes.LittleEndianFits | packages/era/src/swarm-chunk.ts:24-27 | a number that fits four bytes has the same eight bytes as its four bytes and zeros |
| Bytes.LittleEndianValue | packages/era/src/swarm-chunk.ts:24-27 | the number is the sum of its bytes, the i-th times 256^i |
| Bmt.MakeSpan | packages/era/src/swarm-chunk.ts:20-28 | an error exactly outside 1..2^32-1, and otherwise eight bytes, the i-th of weight 256^i, that add up to the length |
| Bmt.LevelKeepsTreeHash | packages/era/src/swarm-chunk.ts:48-55 | hashing a level pair by pair leaves the recursive tree hash unchanged |
| Bmt.Halve | packages/era/src/swarm-chunk.ts:49-53 | one round over the buffer holds the hashes of the input's pairs of segments |
| Bmt.RootIsIndexed | packages/era/src/swarm-chunk.ts:45-55 | the root is node 0 of level 7 when node i of a level is the digest of nodes 2i and 2i + 1 of the level below, in this order, and the leaves are the 32-byte pieces of the payload filled up with zeros to 4096 bytes |
| Bmt.BmtRoot | packages/era/src/swarm-chunk.ts:45-55 | the halving loop over the zero-padded buffer computes the recursive pairwise tree hash over 128 segments |
| Bmt.BmtHash | packages/era/src/swarm-chunk.ts:35-61 | an error exactly for content shorter than 8 bytes or a payload beyond 4096 bytes, and otherwise the digest of the span followed by that root |
| Bmt.MakeChunk | packages/era/src/swarm-chunk.ts:73-81 | an error exactly outside 1..4096 bytes, and otherwise eight span bytes that add up to the length, the payload, and their address |
| Bmt.Partition | packages/era/src/swarm-sqlite.ts:121-127 | cuts data of any length into pieces of the size, the last one possibly shorter |
| Bmt.MakeContentAddressedChunkWithSpan | packages/era/src/swarm-sqlite.ts:227-257 | the list of levels computes the same address as the recursive tree hash, for any span; beyond 4096 bytes only the head of the payload counts |
| Bmt.BothAgree | packages/era/src/swarm-chunk.ts:73-81 | for every payload of 1..4096 bytes the two implementations give the same data and the same address |
| Bmt.AddressPinsChunk | packages/era/src/swarm-chunk.ts:30-61 | two chunks with one address have one span and, filled up with zeros, one payload, or two different strings among those hashed for them have one digest |
| Bmt.AddressPinsPayload | packages/era/src/swarm-chunk.ts:30-34 | two payloads with one address are equal, or two different strings among those hashed for them have one digest |
| ChunkTree.GroupsOfLevel | packages/era/src/swarm-sqlite.ts:278-298 | grouping the nodes of one level by 128 gives the nodes of the next |
| ChunkTree.RootOfLevel | packages/era/src/swarm-sqlite.ts:270-301 | building level after level ends in the tree of least height that holds the file |
| ChunkTree.SpanIsLength | packages/era/src/swarm-sqlite.ts:281-282 | the root's span is the file's length |
| ChunkTree.FullButLast | packages/era/src/swarm-sqlite.ts:110-110 | every node of level k but the last has span 4096 times 128^k and, above the pages, 128 children |
| ChunkTree.LastHasTheRest | packages/era/src/swarm-sqlite.ts:278-289 | the last node of a level has the children left over, between 1 and 128 of them |
| ChunkTree.TreeIsSound | packages/era/src/swarm-sqlite.ts:284-289 | no node has more than 128 references, so every payload fits 4096 bytes |
| ChunkTree.LeftOverPageIsWrapped | packages/era/src/swarm-sqlite.ts:278-289 | a page left over after a full node gets a node of its own with a page's span |
| ChunkTree.LoneNodeHasATwin | packages/era/src/swarm-sqlite.ts:239-254 | whatever the hash, a page that begins with the address of a page of its own length and goes on with zeros has the address of the node above that page, though it is longer |
| ChunkTree.ReadsExactly | packages/era/src/swarm-sqlite.ts:259-262 | over a store that holds the tree up to zeros behind the payloads, a reader that knows the level and finds children by division returns exactly the bytes asked for, for every range of every file |
| FileUpload.AlikeOrClash | packages/era/src/swarm-sqlite.ts:231-257 | two uploaded chunks with one address are alike, or show two different strings with one digest among those hashed for them |
| FileUpload.HoldsTree | packages/era/src/swarm-sqlite.ts:292-295 | where children are uploaded first and no uploaded chunks clash, the store holds the whole tree below each |
| FileUpload.Uploader.MakeNode | packages/era/src/swarm-sqlite.ts:279-289 | the chunk over a batch has the sum of the spans and the addresses in order |
| FileUpload.Uploader.BuildLevel | packages/era/src/swarm-sqlite.ts:275-298 | the loop uploads the nodes of the next level and nothing else, in order and each after its children; if and only if an upload fails it ends without a level, with a first part of them uploaded |
| FileUpload.Uploader.BuildMerkleTree | packages/era/src/swarm-sqlite.ts:263-302 | the recursion terminates, uploads all levels above the references and nothing else and returns the address of the root; if and only if an upload fails it returns nothing, with a first part of them uploaded |
| FileUpload.Uploader.MakeLeaves | packages/era/src/swarm-sqlite.ts:707-713 | the pages are the file cut into 4096-byte parts, in order |
| FileUpload.Uploader.Sync | packages/era/src/swarm-sqlite.ts:707-733 | for every file of at least one byte its pages and all levels above them are uploaded, children first, and every byte range can be read back from the root reference, or two different strings among those hashed for the uploaded chunks have one digest; it returns no reference if and only if an upload fails |
| Epochs.ChildIsTheHalf | packages/era/src/feed-epoch.ts:49-56 | the child of an aligned epoch towards a time in it is the aligned half that contains the time |
| Epochs.Lca | packages/era/src/feed-epoch.ts:66-80 | the loop finds the least level at which the two times agree |
| Epochs.InTreeIs | packages/era/src/feed-epoch.ts:12-40 | the top epoch contains just the times below 2^32 |
| Epochs.CommonContainsBoth | packages/era/src/feed-epoch.ts:65-80 | for times below 2^32 the result is an aligned epoch with both times in it |
| Epochs.CommonIsSmallest | packages/era/src/feed-epoch.ts:65-80 | every other aligned epoch with both times in it contains the result |
| Epochs.NextContains | packages/era/src/feed-epoch.ts:58-62 | once the time has left the previous epoch, the next epoch is aligned, contains the time, and is a child of the common one |
| Epochs.NextIsDisjointIff | packages/era/src/feed-epoch.ts:58-67 | the next epoch is disjoint from the previous one if and only if the last time was not 0 or the new one lies in the upper half of all time |
| Epochs.NextCoversTheFirst | packages/era/src/feed-epoch.ts:58-67 | after a first update at time 0 in the smallest epoch the next epoch covers that one |
| Epochs.MeetingNests | packages/era/src/feed-epoch.ts:1-2 | aligned epochs with a time in common are nested |
| Epochs.NextEpoch | packages/era/src/feed-epoch.ts:82-86 | without a previous epoch the root epoch, otherwise the next one |
| FeedPublisher.ChildOnSpine | packages/era/src/feed-publisher.ts:104 | going to the child from a spine epoch stays on the spine of the time |
| FeedPublisher.NextOnSpine | packages/era/src/feed-epoch.ts:58-62 | from an epoch on the spine of the time the next one is its child there: the common epoch is never asked for |
| FeedPublisher.WriteKeepsTree | packages/era/src/feed-publisher.ts:160-163 | writing an epoch with all of the spine above it occupied keeps every update inside its epoch and below an occupied one |
| FeedPublisher.WriteKeepsOrder | packages/era/src/feed-publisher.ts:140-163 | writing a vacant epoch with the newest update leaves no update above an earlier one |
| FeedPublisher.DeepestIff | packages/era/src/feed-publisher.ts:79-82 | the update written is the deepest on its spine if and only if the epoch below it was vacant or there is none |
| FeedPublisher.AnsweredIsFirstVacant | packages/era/src/feed-publisher.ts:85-105 | where the walk stops at a read that was answered, it stops at the first vacant epoch, and nothing below it is occupied |
| FeedPublisher.Feed.RecoverFeedHints | packages/era/src/feed-publisher.ts:75-107 | the hint is the deepest chunk that is found: down to it every level of the spine is occupied and its read answered, and the next level is vacant or its read failed; no hint means that the root was not found |
| FeedPublisher.Feed.Publish | packages/era/src/feed-publisher.ts:140-163 | over any sequence of publishes with non-decreasing times below 2^32 and any failing reads, each writes the first epoch of its spine at which no chunk is found, and none exactly when one is found at each; it overwrites an update if and only if the read of an occupied epoch failed, and the update is the deepest on its spine if and only if the epoch below was vacant; until an update is overwritten all earlier ones stay in place and none is above an earlier one |
| FeedPublisher.LostReadHidesNewest | packages/era/src/feed-publisher.ts:79-95 | three publishes, the last over a failed read, after which the deepest update on the spine of the last is an older one |

## Left out

- The branches of `updateInner` and `pull` behind `down` and `up`: `down` is always false and `up` always null (`mode.ts:21-27`).
- Trie depths other than 256, keys that are not 32 bytes long, and pivots shorter than a key.
- Trie nodes in the object model keep keys as bit strings and store records by ideal digests; the bytes of a record are the subject of `NodeCodec`, which works on values and not on node objects.
- NodeCodec.UnmarshalBinary: the entry is key and value bytes; other entry types than SwarmEntry are not modelled.
- PotIndex.Index.Update: a whole call that no find or iteration on the same nodes overlaps; what late reads do to it is the subject of `IndexRuns.UpdatesAreExact`. The same goes for the other methods of `PotIndex`, `PotMode` and `PotIter`.
- IndexRuns.StepKeepsInv: a save step may take any unsaved node whose children are saved, not only those below the new root; the order among them is left open.
- PotMode.Pot.Unpack: the read is requested and arrives in one step; `PotMode.Pot.Arrive`, `PotArena` and the runs take the two apart.
- `Index.save` is no step of the runs: the root is saved before it becomes the root, so that a save finds its reference there.
- RecordBytes.BytesPinRef: fork positions that do not ascend or exceed 255, and sizes of 2^32 or more, are left out; the first cannot be written, the second would not fit their four bytes.
- Manifest nodes appear twice: `MantarayTree.MNode` has what the save looks at (children and address), `Manifests.Node` what hydrate and evict look at; that a resolved save leaves what eviction asks for is stated on either side (`SaveTree.Saver.ResolvesWhenClean`, `Spine.Mantaray.EvictBelowDepth`) and not across the two. mantaray-js itself (addFork, removePath, its serialisation) is not part of this model.
- SaveTree.Saver.CanRetry: a retry while uploads of the failed call are still in flight is not modelled.
- SaveTree.Saver.KeepsMoving: a bound of 0 is left out, because such a call never starts anything.
- `saveTree`'s progress callback, and errors it might throw.
- FileUpload.Uploader.Sync: for an empty file the level recursion does not end, so at least one byte is required.
- ChunkTree.ReadsExactly: the reader is a specification; the repository leaves range reads to the Bee node.
- FeedPublisher.Feed.Publish: publishers do not run concurrently, and a call in which a request throws ends before it has written anything; feed readers are not part of this model.
- ChunkStream.Stream.SendFailed: entries are found by the identity of the send; the code compares address objects, which differ from call to call.
- ChunkStream.Stream.NobodyStranded: the number of frames on the wire may exceed the bound, because the check and the send are separated by an await; nothing is claimed about that.
- The client's open handshake and the polling loop with which its close waits for acks.
- How often the proxy tries to connect: an attempt is the last one when the event `GiveUp` says so.
- The defaults of options: 32 uploads and 256 frames in flight are parameters here.
- Text frames, timers, idle timeouts, backoff, watchdog intervals, HTTP, SQLite, signatures, tags and logging.
- The proxy's upload cache is a set of hashes for one batch and path; eviction from it is not modelled.
- Typed values and key padding in `compat.ts`, era archives, block rewards and RPC handlers.
