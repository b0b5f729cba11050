# treevial, verified

A Dafny model of treevial, which keeps a client's copy of a git-style object
graph in step with a server's: values are stored as trees, trees are compared
to select what a client lacks, what is selected is pushed, interpreted and
acknowledged, and the client decodes what moved back into a value.

The model follows the repository's own parts.

- `Git`, `Sorting`, `Paths` and `Basics` are objects, hashes, git's order and
  leaves by path. Hashing is ideal: a hash is the object it names, so hashes
  are injective and no tree reaches itself.
- `Select`, `Replace`, `Mark` and `Store` are the object store: selecting what a
  client lacks, rewriting a blob, compaction, pack loading, and the memo of
  parsed trees with the arrays it must not share.
- `Graph` and `Diff` are the client's copy: sweeping it and comparing two trees
  in it.
- `Schema`, `Walking`, `Decimal`, `Nodes`, `Places`, `InPlace`, `Builder` and
  `Targeted` are values, their leaves, the node tree with its cached hashes and
  lists, where in it nodes stand, the nodes as objects changed where they stand,
  the incremental builder, and what a targeted build comes to.
- `Apply`, `Applying` and `RoundTrip` are decoding: one writer over a leaf map or
  over a pair of trees, first as functions and then as the loops that run.
- `Heads` and `Server` are a ref's pointer and the server's own objects;
  `Protocol` is the push protocol as a relation over steps, `Overtaken` two runs
  of it, `Snapshot` SetHead taken apart, `Lifecycle` the preparation and release
  of refs, and `Client` the client that keeps a bounded history.
- `Lines`, `Framing` and `Session` are what goes over the wire.

Four pieces of the server are single steps of the protocol model although each
takes more than one lock: taking an acknowledgement, SetHead, Sweep and Publish
(server/subscriber.go:155-164, server/server.go:336-367,
server/publish.go:129-177, server/publish.go:49-67). Everything else, loading,
pushing, interpreting, reading and waiting, interleaves freely with them. What
that leaves out of SetHead is `Snapshot`'s subject.

What applications promise is part of each statement: stores in which nothing is
missing, heads that are trees in their ref's store, and a codec whose encoding
of what it decoded is what it decoded.

Where the obvious statement is not true of the code, the true one is proved.

- A targeted build may leave an empty directory behind, which a full build never
  has (`Targeted.EmptyDirLeftBehind`). Its leaf map is the full build's in any
  case (`Builder.StandingIsBuild`). From a tree with no empty directory its root
  hash is too exactly when, above the declared paths, whatever stored something
  still does, and every declared member with members stores something or is
  redone again under a shorter path declared later (`Targeted.TargetedIsBuild`).
- A targeted build refuses a leaf that was absent and is now set, which a full
  build takes (`Targeted.LeafAppears`); when one path or a list of them can be
  redone is said exactly (`Builder.Builder.Refresh`, `Builder.Builder.Build`).
- Decoding between a tree and itself reads nothing, so applying a difference is
  decoding in full exactly when the trees are two or the destination already was
  at the tree (`Apply.SinceDecodes`).
- A value with a leafless element before one with leaves builds to a tree that
  does not decode (`RoundTrip.DecodesIffTidy`).
- An acknowledgement overtaken by a sweep is dropped, and the server goes on
  from the older baseline (`Overtaken.SweepOvertakesAck`). A client that has
  swept that baseline away ends up short of the next head
  (`Overtaken.HistoryFallsShort`); it is brought to every next head exactly when
  it still holds the baseline (`Client.BaselineIsEnough`).
- Having an object is not having a tree: a client that registers a blob as its
  baseline passes the server's check and is refused as soon as there is
  something to push, and nobody else is (`Protocol.BaselinesHeld`,
  `Overtaken.BlobRefused`, server/server.go:637-639, objects/store.go:286-292).
- A move of the head can pass a subscriber by: one that joins between SetHead's
  list of members and its move, and reads the head before it, is parked behind
  with nothing on its way (`Snapshot.Strands`). That is the only way to be
  (`Snapshot.IdlePassedBy`): a subscriber about to join can be left behind
  exactly when some SetHead has listed the members and not yet moved the head
  (`Snapshot.LeftBehindIffBetween`).
- A sweep prunes at what is marked, whatever it was marked as: roots that can all
  be walked are always taken (`Mark.WalkableMarked`), and no others are where no
  object goes by two kinds (`Mark.MarkedExact`); where one does, a tree that
  cannot be walked may be taken (`Mark.MixedKinds`). In a graph, roots that can
  be walked are exactly those that are taken and mix no kinds
  (`Graph.Graph.Retain`).
- A hash is read leniently: which texts of its length are taken is
  `Lines.HashTaken`. A registration survives the wire exactly when its names have
  no space in them (`Lines.RegisterReadsBack`).

## Model

| member | source | states |
|---|---|---|
| Select.ScanExact | objects/select.go:125-166 | On a canonical older list, what stands where an entry would stand is exactly the older entry of that name and mode, or nothing; and what the scan has skipped could not have answered for any later entry. |
| Select.PickedCovers | objects/select.go:90-152 | The comparison is never short: everything the newer tree reaches is reached by the older one or selected, although an object first met against another baseline is pruned; whatever comes into the selection comes in whole. |
| Select.PickedGrows | objects/select.go:90-152 | The comparison only ever appends, never twice, and only what the newer tree reaches. |
| Select.PickedNamed | objects/select.go:90-152 | Every object selected, the root aside, follows a selected tree that names it. |
| Select.PickedMoved | objects/select.go:90-152 | On well-formed trees nothing is selected that stands unmoved at its own name and mode in the older tree. |
| Select.PickedSucceeds | objects/select.go:90-152 | Over a closed store the descent fails on nothing beneath a root it holds. |
| Select.Advance | objects/select.go:125-152 | The cursor stops exactly where the entry would stand in the older list and reads what stands there. |
| Select.Descend | objects/select.go:106-152 | One step of the comparison, seen-set and output in step, ends where the recursive selection ends and fails exactly where it fails. |
| Select.SelectCompared | objects/select.go:90-152 | Succeeds exactly when the newer tree can be read; the result is duplicate-free, within the newer tree, parents first, and leaves no gap. |
| Select.Walk | objects/select.go:228-252 | The traversal visits, parents first, exactly the objects not marked. |
| Select.Reachable | objects/select.go:203-223 | Exactly what the root reaches; nothing for the zero hash; an error exactly when the root cannot be read. |
| Select.SelectExact | objects/select.go:175-202 | Exactly what the newer tree reaches and the older does not, without repeats, parents first. |
| Select.SelectSince | objects/select.go:29-62 | Succeeds exactly when the baseline (unless zero) and the goal are trees the store holds; never short; exactly the difference when there is no baseline or the result is more than half the store; otherwise only what moved. |
| Select.ExactIsLeast | objects/select.go:29-62 | The exact selection is a subset of anything the comparison may select. |
| Store.CompareEntries | objects/store.go:473-506 | Byte by byte, with a slash where a directory's name ends: which comes first is decided by the first byte that differs, or by the shorter one ending; zero exactly when the bytes are the same. |
| Basics.LessIsByteOrder | objects/store.go:478-486 | One string comes before another exactly when the byte at the first difference is the lower, or it ends there. |
| Store.IsSorted | objects/store.go:187-219 | Says exactly whether a list is in canonical order. |
| Store.Store.Entries | objects/store.go:131-161 | Answers for exactly the trees held, with the stored entries; every list remembered afterwards was remembered before or is one nobody else has. |
| Store.Store.AddBlob | objects/store.go:164-185 | Adds exactly the blob; the memo is untouched. |
| Store.Store.AddTree | objects/store.go:187-219 | Stores the entries in canonical order under their hash and remembers a copy, so a caller may go on rewriting its own list. |
| Store.Store.ReplaceBlob | objects/store.go:426-470 | Rewrites the trees on one path: on success the store gains exactly those objects, on failure nothing; the memo stays right although the entry list is rewritten in place. |
| Store.Store.Compact | objects/store.go:294-359 | Roots that can all be walked are taken, and where no object goes by two kinds no others are, and the new store holds exactly what the walks meet; for roots that are sound trees that is exactly what they reach. It has exactly the memo of what it holds, the count is what was left behind, the old store's objects are untouched, and every list its memo holds afterwards was there before or is one nobody else has. |
| Store.Store.LoadPack | objects/store.go:361-424 | Loads objects until one is stored under another hash than it came by, which is exactly a tree whose entries are not in canonical order. |
| Store.Store.Load | objects/store.go:394-424 | What arrives is stored, and the check passes exactly when storing did not reorder it. |
| Store.CachedNode.Write | structtree/structtree.go:605-618 | A node stores its list, keeps it as its own, and leaves the store's memo right and unshared. |
| Store.CachedNode.Moved | structtree/structtree.go:620-655 | Puts a moved child in its slot in place exactly when the list has that slot with that mode, else touches nothing; the store's memo is unaffected. |
| Store.CachedNode.Restore | structtree/builder.go:330-360 | Storing a node again, in place or from scratch, stores the tree of the children as they are; the list it keeps is the one it had or a new one, and no remembered list is the one rewritten. |
| Store.CompactAndRestore | objects/store.go:344-352 | After a compaction a node stored again in the new store is right there and its list is in neither memo, though the two stores share theirs; both memos stay right. |
| Git.ClosedHoldsAll | objects/store.go:281-292 | In a store with nothing missing, holding a tree is holding everything beneath it, which is what Has relies on. |
| Git.SortNameDecides | objects/store.go:473-506 | Two valid names that sort under the same bytes are the same name and the same kind. |
| Git.SlashDecides | objects/store.go:478-506 | A file comes before a directory of its own name, and one whose name goes on from there before or after it as its next byte is below or above the slash. |
| Git.SortedBytes | objects/store.go:187-219 | Sorting loses no entry and repeats none, and whatever stands before another has the lower bytes or the same. |
| Git.SortedCanonical | objects/store.go:187-219 | Sorting entries with distinct valid names gives git's strict order and loses none of them. |
| Git.LeavesDecideTree | structtree/structtree.go:468-530 | A well-formed tree without empty directories is determined by its files: the same leaf map means the same root hash. |
| Replace.WrittenClosed | objects/store.go:426-470 | The objects a replacement adds keep a store closed. |
| Replace.TreeKeepsClosed | objects/store.go:187-219 | Adding a tree whose entries are held, as the kinds they say, keeps a store closed; this is the caller's part, since AddTree does not check. |
| Replace.ReplacedTree | objects/store.go:426-470 | Replacing a blob at an existing path of a well-formed tree succeeds and gives a well-formed tree. |
| Replace.ReplacedLeaves | objects/store.go:426-470 | Afterwards the path holds the new content under its old mode, and every other path what it held. |
| Replace.ReplacedMoves | objects/store.go:426-470 | What moved between the old root and the new lies on the replaced path. |
| Replace.ReplaceCost | objects/select.go:29-62 | A selection of what moved after replacing a blob k components deep has at most k+1 objects, all of them on that path. |
| Mark.MarkedExact | objects/store.go:294-359 | Where no object is named both a file and a directory, marking adds exactly what a walk that prunes nothing would meet, and fails exactly when some of that is not held as what it is named. |
| Mark.WalkableMarked | objects/store.go:294-359 | Whatever the modes say, a walk that would meet nothing missing is marked. |
| Mark.MixedKinds | objects/store.go:294-359 | A tree naming one blob as a file and then as a directory is marked although it cannot be walked, over a store's one set of objects and over a graph's two: pruning does not look at the kind. |
| Mark.WalkableUnmixed | receive/graph.go:119-180 | Where nothing is held both as a blob and as a tree, roots that can be walked name no object both ways. |
| Mark.SaneWalks | receive/graph.go:119-180 | Roots that are sound trees never mix kinds, what their walks meet is what they reach, and they can be walked exactly when that is held. |
| Mark.MarkRoot | receive/graph.go:119-180 | One more root adds exactly what a walk from it meets to what the roots before it gave, or fails exactly when it cannot be walked. |
| Graph.Graph.OnBlob | receive/graph.go:40-45 | The graph gains exactly this object. |
| Graph.Graph.OnTree | receive/graph.go:47-52 | The graph gains exactly this object. |
| Graph.Graph.Mark | receive/graph.go:150-182 | Never fails on a root that can be walked; over marks good for all beneath them, and no object going by two kinds, it adds exactly what a walk meets and fails exactly when there is none. |
| Graph.Graph.Retain | receive/graph.go:100-148 | The roots can all be walked exactly when they are taken and no object goes by two kinds; a failure changes nothing. What is left then is exactly what the walks meet, for sound trees what they reach, unchanged, and the difference in size is reported. |
| Paths.JoinInjective | structtree/structtree.go:298-313 | Joining components that have no slash in them can be undone. |
| Paths.LeafPathValid | receive/graph.go:184-239 | Every path to a file of a well-formed tree is made of valid names. |
| Paths.LeafReached | receive/graph.go:184-239 | The content of every leaf is among what the tree reaches. |
| Diff.CompareReports | receive/compare.go:33-101 | The comparison visits each changed file exactly once with what was there and what is there, and nothing else, subtrees of equal hash skipped and swaps of file and directory expanded. |
| Diff.WholeReports | receive/compare.go:103-117 | A side that is there alone is visited file by file, each once. |
| Diff.RootsExact | receive/compare.go:33-137 | It succeeds exactly when, wherever the directories of the two trees differ, both can be read; where they are the same nothing is. |
| Diff.Diff | receive/diff.go:78-110 | The changes are strictly sorted by path, one a path, of exactly the paths whose file differs in presence, hash or mode, with the kind that says so. One that came or was modified carries the newer file's hash and the bytes it names; one that went carries the hash it had and no bytes. It succeeds exactly when the graph holds whatever directories differ, of both trees, and whatever new content there is. |
| Diff.Tell | receive/diff.go:78-110 | A visit becomes a change of its kind, and it fails exactly over content the graph lacks. |
| Diff.ReportsAreDiff | receive/diff.go:78-110 | Sorting the visits to files gives exactly the difference. |
| Diff.DiffPatches | receive/diff.go:78-110 | Applying the changes to the leaf map of the older tree gives exactly the leaf map of the newer. |
| Diff.DiffRewrites | receive/diff.go:78-110 | Applying what the changes carry to what the older tree's files hold gives what the newer's hold, byte for byte. |
| Schema.StoredPrefixFree | structtree/structtree.go:142-194 | No stored path leads to another: a leaf is never on the way to a leaf. |
| Schema.StoredIsTyped | structtree/structtree.go:217-296 | Every stored path is one the type has a leaf at, whatever the value. |
| Schema.LeafPathEnds | structtree/structtree.go:357-405 | A path a type has a leaf at cannot go on within the type. |
| Schema.StoredBeneath | structtree/builder.go:493-546 | What is stored beneath a path is what the member found there stores, pointers followed. |
| Schema.StoredNamesValid | structtree/structtree.go:344-355 | With valid keys throughout, every component of every stored path is a valid name. |
| Schema.LeafRule | structtree/structtree.go:357-405 | Pointers aside, what is stored whole is a scalar, a message, a slice or array of scalars, and whatever is tagged; nothing else is. |
| Schema.ZeroTyped | structtree/apply.go:199-207 | What a member is cleared to is a value of its type: a plain scalar is never nil. |
| Schema.ZeroStoresLeast | structtree/structtree.go:142-194 | A zero value stores nothing that any other value of its type does not store too, and what it stores is zeros. |
| Walking.Walk | structtree/structtree.go:142-194 | Yields exactly the leaves the value stores, and succeeds exactly when every map key met can stand as a path element. |
| Walking.WalkEntries | structtree/structtree.go:217-296 | The same for a map, in sorted key order. |
| Walking.WalkElems | structtree/structtree.go:217-296 | The same for slices and arrays, elements named by index. |
| Walking.SortedKeys | structtree/structtree.go:217-296 | Exactly the keys, each once, in order. |
| Decimal.ItoaReadsBack | structtree/apply.go:443-468 | An index or count printed in decimal reads back as itself. |
| Decimal.ItoaInjective | structtree/apply.go:486-498 | No two indices share a name. |
| Decimal.ItoaShortest | structtree/apply.go:486-498 | No index is named with a leading zero. |
| Decimal.AtoiTaken | structtree/apply.go:449-458 | Text read as a positive index is digits within range, a plus sign allowed; as zero, zeros under either sign. |
| Nodes.InsertedAt | structtree/structtree.go:532-560 | Inserting a blob sets that path and changes no other. |
| Nodes.InsertedBushy | structtree/structtree.go:532-573 | Insertion never leaves a node without leaves. |
| Nodes.FitsWhereFree | structtree/structtree.go:532-560 | A path fits wherever no leaf stands on the way to it or beneath it. |
| Nodes.PersistedSettled | structtree/structtree.go:575-603 | After storing, every cached hash and list is that of the children as they are. |
| Nodes.StandsLeaf | structtree/structtree.go:575-603 | The tree a settled node names has exactly the node's leaves. |
| Nodes.StandsWellFormed | structtree/structtree.go:575-603 | And it is well-formed. |
| Nodes.StandsNoEmptyDirs | structtree/structtree.go:575-603 | If every node has leaves, no directory of it is empty. |
| Nodes.EditedAt | structtree/builder.go:398-440 | Attaching, setting or detaching at a path changes what lies at or beneath it and nothing else. |
| Nodes.EditedSettled | structtree/builder.go:398-440 | And leaves every cached hash and list right but those on the way to it. |
| Nodes.RestoredSettled | structtree/builder.go:330-360 | Storing a node whose one child has moved puts its hash and list right. |
| Nodes.RehashedSettled | structtree/builder.go:301-360 | Re-hashing a path's chain settles that path, whatever other declared paths are still pending, above, beneath or beside it. |
| Nodes.RehashedAt | structtree/builder.go:301-360 | Re-hashing moves no leaf. |
| Places.EditedMeets | structtree/builder.go:384-440 | Where no leaf is on the way, attaching succeeds exactly when a node stands above the path, setting a leaf exactly when one stands at it, and detaching always. |
| Places.EditedPresent | structtree/builder.go:384-440 | An edit leaves nodes standing at and beneath its path as it says, and everywhere else where they stood. |
| Places.RehashedPresent | structtree/builder.go:301-360 | Re-hashing moves no node. |
| Places.BushyPresent | structtree/structtree.go:532-573 | With a leaf beneath every node but the top, nodes stand exactly on the way to leaves. |
| Places.FilledIffLeads | structtree/structtree.go:575-603 | A stored tree has no empty directory exactly when a leaf lies beneath every node but the top. |
| Builder.Builder.BuildAll | structtree/builder.go:185-216 | A full build succeeds exactly when every key is valid, and then its tree is the one tree that is a build of the value; on failure the last tree stands. |
| Builder.Builder.Refresh | structtree/builder.go:233-299 | One declared path redone succeeds exactly when the member is gone or is a nil leaf, or is a set leaf with a node at the path, or has members, nil or not, valid keys and a node above the path. Then the edit made there holds exactly what the current value stores at and beneath it and the nodes for that, and every address the layout has at or beneath a member with members is taken down again, every other kept. |
| InPlace.NodeTree.Chain | structtree/builder.go:362-382 | The walk from the root gives the nodes on the way to a path's parent, as far as they are there. |
| InPlace.NodeTree.Detach | structtree/builder.go:420-440 | Deleting in place from the parent's map and order, and dropping its list, leaves the tree that removing what is at the path means, which may leave the parent empty; nothing changes where there is nothing. |
| InPlace.NodeTree.Attach | structtree/builder.go:398-418 | Putting another tree's root into the parent's map, in place of a child or last in order, leaves the tree that grafting it at the path means; refused exactly where the parent is not there. |
| InPlace.NodeTree.NodeAt | structtree/builder.go:384-396 | Walking the maps finds a node exactly where the tree as a value leads that way, and the node found is the one that value leads to. |
| InPlace.NodeTree.SetBlob | structtree/builder.go:257-266 | Giving the node at the path another blob and no children, in place, leaves the tree that setting that leaf means; refused exactly where there is no node. |
| InPlace.Lift | structtree/builder.go:398-440 | A change of one node where it stands is a change of what the root is in that place and no other, no node being a child twice. |
| Builder.Builder.Rehash | structtree/builder.go:301-360 | The chain from a path's parent to the root is stored again, and the store stays closed. |
| Builder.Builder.Resolve | structtree/builder.go:442-491 | The declared addresses resolve to their paths exactly when each is at the path it was at in the last build. |
| Builder.Builder.Build | structtree/builder.go:155-183 | Succeeds exactly when every address still stands and every path can be redone in its turn, or, with nothing declared, nothing built or the value itself declared, exactly when every key is valid. A targeted build then holds the current value's leaves at and beneath every declared path, in any order and overlap, and what it held everywhere else, its nodes standing where the paths redone in turn leave them, and its index has every address at or beneath a declared member with members where the layout has it and every other where it was; a full one is the one build of the value. Every cached hash is right again. |
| Builder.Builder.Redo | structtree/builder.go:155-183 | The same for a list of paths: it succeeds exactly when each can be redone in its turn; all are refreshed first, then every chain is re-hashed. |
| Builder.Builder.RehashAll | structtree/builder.go:155-183 | After every declared chain is re-hashed nothing is out of date, and no leaf and no node has moved. |
| Builder.RedoneStanding | structtree/builder.go:233-299 | Where nodes stand after one path is redone, from where they stood and the value alone. |
| Builder.Builder.Retarget | structtree/builder.go:120-140 | A store is taken exactly when it holds the tree last built, and then the next build may go on from there. |
| Builder.SplicedMirrors | structtree/builder.go:155-183 | If the value changed only at or beneath the declared paths, a successful targeted build has exactly the leaves of a full walk. |
| Builder.HistoryMirrors | structtree/builder.go:155-183 | And so over any history of values and declarations. |
| Builder.StandingIsBuild | structtree/builder.go:155-183 | Such a tree has the leaf map of a full build unconditionally, and its root hash exactly when the value stores something beneath every node. |
| Builder.BuildIsUnique | structtree/structtree.go:468-530 | A value has one full build: nothing depends on map order or on the order of insertion. |
| Builder.GrownIsBuild | structtree/structtree.go:473-530 | Planting the leaves of a walk and storing the nodes is a full build. |
| Targeted.TargetedIsBuild | structtree/builder.go:155-183 | From a tree with no empty directory, told of every change, a targeted build has the full build's root hash exactly when above the declared paths whatever stored something still does, and every declared member with members stores something unless a shorter path is declared after it: a condition on the two values and the list. |
| Targeted.OnePathFilled | structtree/builder.go:155-183 | With one path declared: every nonempty path above it that stored something still does, and a member with members at it stores something. |
| Targeted.LeafRedone | structtree/builder.go:245-266 | Right after a full build, a set leaf can be redone exactly when the value last built stored it: one that appears is refused. |
| Targeted.OrderMatters | structtree/builder.go:171-181 | A member with members declared after one around it is left standing whatever it stores; declared before it, only if it stores something. |
| Targeted.BuildTwice | structtree/builder.go:155-216 | Any value built and then any other built with any changes declared, beside a full build of it: when the targeted one is refused, that its leaf map is the full one's, and when its hash is. |
| Targeted.BuildOnward | structtree/builder.go:293-299 | Two targeted builds: addresses the first took down beneath a declared member, new ones among them, are not refused by the second. |
| Targeted.EmptyDirLeftBehind | structtree/builder.go:420-440 | Two builds, the second targeted and clearing the only field of a struct: its root hash is not the full build's, though the leaf map is. |
| Targeted.LeafAppears | structtree/builder.go:257-260 | Two builds, the second targeted at a field that was nil and is set: it is refused, and a full build is not. |
| Apply.IntoAgrees | structtree/apply.go:411-435 | Writing from either view over any destination that is at the baseline gives what the tree itself decodes to, and fails only where the tree cannot be decoded or read. |
| Apply.MemberAgrees | structtree/apply.go:225-281 | The same for one member: left alone, cleared, decoded or descended into. |
| Apply.LeavesDecode | structtree/apply.go:56-81 | Applying a flat leaf map over any destination is decoding the tree it is the leaf map of. |
| Apply.SinceDecodes | structtree/applysince.go:24-71 | Over the decode of the older tree, or over anything when there is no baseline to be had, applying the difference to a readable newer tree ends where decoding it ends exactly when the two trees differ or the destination was there already. |
| Apply.IntoTyped | structtree/apply.go:199-281 | Filled from any view, a value stays a value of its type, whatever the view lacks. |
| Apply.DecodeTyped | structtree/apply.go:411-435 | What a tree decodes to is a value of the type, whether or not a build made the tree. |
| Apply.SinceTyped | structtree/applysince.go:24-71 | So is what a difference is applied to, afterwards. |
| Apply.SinceKept | structtree/applysince.go:24-71 | What stands at a path as it stood before is left alone there, whatever the destination holds. |
| Apply.EntryAtFile | structtree/applysince.go:24-71 | The file at a path is what the tree's leaf map has there. |
| Apply.SinceRefuses | structtree/applysince.go:42-71 | Nothing is applied from nowhere, nor from a tree that cannot be read; between a tree and itself nothing is read at all. |
| Apply.MapLeaf | structtree/apply.go:291-306 | A leaf map holds a member's bytes exactly when the tree has a file of that name. |
| Apply.MapSubtree | structtree/apply.go:308-332 | A leaf map has something beneath a name exactly when the tree has a directory there, given that none is empty. |
| Apply.MapNames | structtree/apply.go:381-409 | The names a leaf map shows at a level are exactly the tree's. |
| Apply.CountedNames | structtree/apply.go:443-468 | Where indices run without a gap there is no entry past the count. |
| Applying.CountIndices | structtree/apply.go:449-468 | Reading the names as numbers, sorting them and running through for a gap answers exactly when the names are the indices from zero, each once. |
| Applying.ReadIndices | structtree/apply.go:449-458 | Every name read as a number, or none of them. |
| Applying.EachInPlace | structtree/apply.go:460-466 | A sorted list that has every number below its length has each in its place. |
| Applying.ApplyMember | structtree/apply.go:225-281 | The branches over a leaf and a subtree do what the specification of one member does. |
| Applying.FillInto | structtree/apply.go:411-435 | Whatever the shape, pointers allocated on the way, the writer's result is the specified one, errors included. |
| Applying.FillFields | structtree/apply.go:129-162 | A struct is filled field by field. |
| Applying.FillMap | structtree/apply.go:339-379 | A map is edited entry by entry, unchanged entries keep what they hold, and keys the view no longer has are deleted. |
| Applying.FillElems | structtree/apply.go:443-505 | A slice is resized to what the view has; an array must have room. |
| Applying.FillUpTo | structtree/apply.go:486-502 | Elements are written one after the other, and an array is cleared past the last. |
| RoundTrip.TreeDecodes | structtree/apply.go:411-435 | The tree a suitable value is built to decodes, and to a value that stores the same leaves. |
| RoundTrip.DecodesIffTidy | structtree/apply.go:443-505 | A build decodes exactly when the value's slices and arrays have leafless elements only at the end. |
| RoundTrip.UntidyFails | structtree/apply.go:460-468 | With a leafless element before one with leaves there is a gap, and decoding is refused. |
| RoundTrip.RoundTrips | structtree/structtree.go:468-530 | Build, decode, build gives the same root hash; decoding by leaf map over any destination and decoding by tree give the same value. |
| RoundTrip.ZeroLeafless | structtree/structtree.go:142-194 | A zero value stores nothing, so a cleared tail stays out of the tree. |
| Heads.RefState.MoveHead | server/head.go:141-179 | A head moves the ref exactly when it is the first, or of the ref's kind and, if sequenced, newer; otherwise the ref is as it was and the answer says why. |
| Heads.RefState.WouldMove | server/head.go:195-211 | The answer MoveHead would give. |
| Heads.RefState.Install | server/head.go:213-223 | The store changes whether or not the head does. |
| Heads.DeliverReaches | server/head.go:141-192 | Whatever a ref is delivered its kind stays; a sequenced one ends no older than anything it was given, an unsequenced one at the last head of its kind. |
| Heads.NewestWins | server/head.go:141-179 | A sequenced ref given heads in any order, repeats and heads of the other kind among them, ends at the one of highest sequence. |
| Heads.FirstStands | server/head.go:141-179 | Of heads that share the highest sequence, the one delivered first stands. |
| Heads.DeliveriesAgree | server/head.go:141-179 | Two deliveries of the same heads end at the same head. |
| Heads.AnnouncementsAscend | server/server.go:649-672 | The sequences announced over one connection never decrease and are all of one kind, heads delivered before, during and after preparation included. |
| Heads.AnnouncesLast | server/server.go:649-672 | Each announcement is of the head the ref has come to by then. |
| Heads.ReadyMeans | server/server.go:649-672 | Nothing is announced before the ref has a head. |
| Server.Subscriber.Ack | server/subscriber.go:146-164 | The baseline becomes the acknowledged hash unless the ref's store has been replaced since the push. |
| Server.Subscriber.Wake | server/subscriber.go:175-183 | A wake-up is pending afterwards, however many there were. |
| Server.Server.SetHead | server/server.go:330-370 | Unknown and retiring refs are refused; a ref that moves wakes everyone who follows it; nothing else changes in any case. |
| Server.MoveAndWake | server/server.go:353-369 | Head and wake-ups change together or not at all. |
| Server.Server.Publish | server/publish.go:14-70 | An invalid or held ref is refused and nothing changes; otherwise exactly one entry is added, at its store and head, with nobody following it. |
| Server.Server.Unpublish | server/publish.go:182-218 | Exactly a published ref is given up, and exactly its subscribers' connections are to be closed. |
| Server.Server.Check | server/publish.go:111-146 | Every named ref living and published, every resulting head held by the new store, every named head advancing its ref. |
| Server.Server.Sweep | server/publish.go:72-180 | Refused exactly over a ref named that is not living and published, a head to come that the new store lacks, or a named head that does not advance its ref; then nothing changes. Otherwise every published ref is at the new store and at its named head, or the one it had, which that store holds; a subscriber's baseline is reset exactly when the store dropped it, it is woken exactly for that or for its ref being named, and the count is the number reset. |
| Server.InstallAll | server/publish.go:148-179 | Installing ref by ref touches each ref and its own subscribers once, in any order. |
| Protocol.RunKeeps | server/server.go:477-529 | The invariant below holds after every run of connects, loads, pushes, acknowledgements, moves, sweeps, publications and disconnects, from any state that has it. |
| Protocol.SweepKeeps | server/publish.go:103-180 | A sweep keeps it wherever each push and each acknowledgement stand. |
| Protocol.PushKeeps | server/server.go:756-786 | After a push, the client's graph and what it is being sent together hold all the head reaches. |
| Protocol.AckTakenOk | server/server.go:728-751 | Taking an acknowledgement, a stale one or one of a replaced store included, leaves a baseline the ref's store holds. |
| Protocol.AckMoves | server/subscriber.go:146-164 | Only the acknowledgement of what was pushed ends the wait, and then the baseline is what was pushed, if the ref still has the store it was pushed from. |
| Protocol.AckReadTouches | server/server.go:788-809 | An acknowledgement that arrives while one is unread is lost, and any other waits. |
| Protocol.SetHeadTouches | server/server.go:336-367 | A move of the head wakes exactly whoever is connected to the ref. |
| Protocol.SweepAllowed | server/publish.go:103-146 | When a sweep may be made, told from refs, stores and heads alone. |
| Protocol.SweepTouches | server/publish.go:148-177 | Exactly whose baseline a sweep drops, whom it wakes and which refs it moves. |
| Protocol.NeverShort | client/client.go:360-448 | After every run an accumulating client holds in full the head it last interpreted, every leaf's content included, and the tree the server records as its baseline. |
| Protocol.BaselinesHeld | server/server.go:632-639 | In every reachable state a served subscriber's baseline is zero or in the ref's current store and every nonzero head is a tree in it; a push is refused exactly when there is a head to push and the baseline is a blob, which no honest client registers. |
| Protocol.NoLostWakeUp | server/server.go:510-528 | A parked subscriber with no wake-up pending has a client at the ref's current head, whatever moves, bursts and sweeps came before. |
| Protocol.AckNeverDropped | server/server.go:788-809 | With a client that acknowledges once per update the slot is free when the acknowledgement comes, and what is waited for is what comes. |
| Protocol.CatchesUp | server/server.go:506-528 | From any reachable state, at most twelve steps of a connection's own bring its client to the ref's head in full, if nothing moves it meanwhile; the baseline ends there too, exactly unless what was pushed last came from a store since replaced. |
| Protocol.ReachesHead | server/server.go:506-528 | So after any run, every honest client still connected to a prepared ref can be brought to its head. |
| Overtaken.SweepOvertakesAck | server/subscriber.go:146-164 | A run in which a sweep overtakes an acknowledgement and leaves the server's baseline at the older tree for good. |
| Overtaken.HistoryFallsShort | client/client.go:353-398 | After that run a client that kept one state is pushed a difference it cannot complete, where an accumulating one can. |
| Overtaken.BlobRefused | objects/store.go:286-292 | A run in which a client registers a blob, passes the check on joining and has its push refused. |
| Snapshot.RunKeeps | server/server.go:336-367 | With listing the members, moving the head and waking each of them as steps of their own, whoever was listed and has not read the head since is woken or about to be, in every run. |
| Snapshot.IdlePassedBy | server/server.go:336-367 | In every run, a parked subscriber with no wake-up pending or coming is behind only for moves by calls that had listed the members before it joined. |
| Snapshot.LeftBehindIffBetween | server/server.go:336-367 | In every reachable state, a subscriber about to join can be parked behind with nothing on its way by some continuation exactly when some SetHead has listed the members and not yet moved the head. |
| Snapshot.Strands | server/server.go:336-367 | A run in which a subscriber joins and reads the head between a list and its move, and is left behind. |
| Client.Client.Take | client/client.go:366-447 | With a baseline of zero or a kept state, an update leaves the graph at exactly what the kept states and the new head reach; the sweep does not fail; the report names the state before, which is still there in full. |
| Client.Client.Consume | client/client.go:339-449 | The same at every update of every run, the kept states being the last ones told, at most as many as asked for. |
| Client.Client.Sweep | client/client.go:385-398 | Exactly the kept states survive, and nothing is swept before there is one. |
| Client.Client.Remember | client/client.go:440-447 | The newest state is added unless it is the last already, and the oldest dropped past the limit. |
| Client.WindowsAreLast | client/client.go:440-447 | What is kept after any run is the last of the states told, repeats of the newest aside, as many as asked for or all there were. |
| Client.BaselineIsEnough | client/client.go:353-398 | A client is brought in full to every next head exactly when it still holds all of the baseline. |
| Client.SelectionBridges | objects/select.go:29-62 | Any complete selection for a sound head, and the empty one for a ref that points nowhere, sent as its objects, brings a client that holds the baseline to the head with nothing foreign to it. |
| Lifecycle.NeverOverlap | server/server.go:559-726 | In every run, for every ref, provider calls never overlap across generations of its entry, and no entry is prepared or released twice. |
| Lifecycle.CallFollows | server/server.go:647-726 | A preparation begins only where the last one failed or was given back, and a release only right after the installed preparation it returns. |
| Lifecycle.ReleasedWhenEmpty | server/server.go:684-726 | Data goes back only after the last member of its entry left, and none can join that entry again. |
| Lifecycle.NeverSkipped | server/server.go:695-725 | An entry retired by its last member was prepared, so it is released, and until that is done no other entry of its ref can be created or published. |
| Lifecycle.CanConnect | server/server.go:559-645 | A new connection is taken at once, to the entry held or one of its own, exactly unless the ref is being given back. |
| Lifecycle.CanLeave | server/server.go:684-726 | From any reachable state, whoever has joined can leave within four steps, failed preparations included. |
| Lifecycle.CanBeFreed | server/server.go:559-726 | From any reachable state, a held ref can be brought to where nobody holds it and the provider has nothing of it left to do or get back. |
| Lifecycle.OneEntry | server/server.go:559-645 | A connection is a member of no entry but the one it joined. |
| Lifecycle.RunKeeps | server/server.go:559-726 | What ties an entry's stage to its ref's calls holds after every run. |
| Lines.HashReadsBack | internal/wire/wire.go:368-380 | A printed hash reads back, the zero hash included. |
| Lines.HashTaken | internal/wire/wire.go:368-380 | Text of a hash's length is taken exactly when it is the zero hash in full or the bytes decoded before its first non-hexadecimal pair are not all zero. |
| Lines.LooseHash | internal/wire/wire.go:368-380 | For one: text that begins 12z, which is no hash, is taken for one. |
| Lines.HexLetters | internal/wire/wire.go:368-380 | Hashes are printed in small letters and read in either case. |
| Lines.RegisterTaken | internal/wire/wire.go:258-303 | Exactly which lines are read as a registration, and as which: three fields, or four, an empty name and none being one. |
| Lines.AckTaken | internal/wire/wire.go:258-303 | Exactly which lines are read as an acknowledgement. |
| Lines.AnnounceTaken | internal/wire/wire.go:305-366 | Exactly which lines are read as a server's name. |
| Lines.UpdateTaken | internal/wire/wire.go:305-366 | Exactly which lines are read as an update: its count may be signed or padded, its sequence is there only if not zero. |
| Lines.RefusalTaken | internal/wire/wire.go:305-366 | Exactly which lines are read as a refusal: a message may be left out. |
| Lines.RefTaken | treevial.go:142-193 | Exactly which names a ref may have: refs and at least two more components, none empty, hidden or reserved, of printable characters but those git's syntax uses. |
| Lines.IdTaken | treevial.go:95-140 | Exactly which names a client or a server may have. |
| Lines.RegisterReadsBack | internal/wire/wire.go:194-205 | A registration reads back as it was sent exactly when neither the ref nor the name has a space in it. |
| Lines.ValidNamesSurvive | treevial.go:101-193 | A ref and a name that pass validation are read back as sent. |
| Lines.AckReadsBack | internal/wire/wire.go:207-210 | An acknowledgement reads back. |
| Lines.AnnounceReadsBack | internal/wire/wire.go:212-217 | A server's name reads back exactly when it is one non-empty field. |
| Lines.UpdateReadsBack | internal/wire/wire.go:219-231 | An update line reads back for every hash, count and sequence. |
| Lines.RefusalReadsBack | internal/wire/wire.go:233-236 | A refusal keeps its message whatever is in it, exactly when its code has no space. |
| Lines.TrailersMean | internal/wire/wire.go:382-419 | The trailers are accepted exactly when there are none, or one that says seq= and a nonzero number. |
| Lines.ParseTrailers | internal/wire/wire.go:388-419 | The loop over the fields gives what the fields are specified to mean. |
| Lines.SplitJoin | internal/wire/wire.go:265-265 | Fields joined by spaces split back. |
| Framing.PackWriter.Write | internal/wire/wire.go:438-458 | However the bytes come, the packets sent are the full chunks of all of them and the buffer is the rest. |
| Framing.PackWriter.Close | internal/wire/wire.go:475-482 | The chunks of everything written and one flush have been sent. |
| Framing.PackReader.Read | internal/wire/wire.go:497-529 | Hands out the next bytes of a pack, at most as many as asked for; the end is told only when none are left and the flush was read, a cut only when there is no flush. |
| Framing.PackReader.Drain | internal/wire/wire.go:484-529 | Through buffers of any sizes a whole pack is read and the connection left exactly past its flush. |
| Framing.PackReadsBack | internal/wire/wire.go:421-529 | Chunked and flushed, a pack reads back, and what follows is left alone. |
| Framing.PackCost | internal/wire/wire.go:421-482 | A pack of n bytes costs n + 4*ceil(n/32768) + 4 on the wire, and no chunk is empty or too long for a packet. |
| Framing.ChunksGrow | internal/wire/wire.go:438-473 | More bytes, up to a full chunk, touch only what is left over. |
| Framing.Conn.ReadServerMessage | internal/wire/wire.go:238-256 | One packet is consumed, the line's end trimmed, and an empty line is malformed. |
| Session.SessionUnderstood | internal/wire/wire.go:258-419 | Any session, a server's name or none and then updates with their packs, is understood as it was sent. |
| Session.SessionCut | internal/wire/wire.go:305-366 | A session cut anywhere is understood exactly if nothing of it arrived, or its name and some number of whole updates; cut inside a pack it is not. |
| Session.RefusalEnds | internal/wire/wire.go:305-366 | Nor is one that ends in a refusal, whatever came before. |
| Session.Send | internal/wire/wire.go:212-231 | Written through a pack writer in any pieces, a session is the packets it should be. |
| Session.Receive | internal/wire/wire.go:305-366 | Read message by message and pack by pack, a connection is understood to its end, or refused where it is malformed, refuses, or is cut short. |

## Left out

- Builder.Builder.Build: the node tree is a value in the builder's field, so nodes being shared or rewritten in place by two holders is not captured; the one place that matters, entry lists shared with a store's memo, is modelled with arrays in `Store.CachedNode`.
- Builder.Builder.Redo: says nothing of the tree after a failed build, since an error leaves nodes half refreshed, and a targeted build right after one is not modelled.
- Builder.Builder.Detach: within the builder the node tree is one value, edited whole; `InPlace.NodeTree.Detach` is the edit made by walking and deleting in place, and comes to the same value.
- Builder.Builder.Attach: the same, by `InPlace.NodeTree.Attach`; insertion, re-hashing and storing are modelled on values only.
- Builder.Builder.Resolve: addresses are abstract and no two paths share one.
- Applying.FillInto: the destination is a value handed back; what an error leaves half written, and pointers into the destination held elsewhere, are not captured.
- Walking.Walk: types are finite schemas of pointers, structs, string-keyed maps, slices and arrays under the default leaf rule; recursive types, interfaces, custom leaf rules, tags and the refusals of structtree/mapper.go are not modelled, and nil and empty slices are one.
- RoundTrip.RoundTrips: JSON and protobuf are an abstract codec.
- Select.SelectSince: a store is the set of objects it holds, and nothing is missing from it.
- Store.Store.AddTree: the library's unstable sort is a stable one, which differs only on lists that name an entry twice.
- Store.Store.LoadPack: a pack is its objects in order; go-git's pack encoding, zlib and SHA-1 are not modelled.
- Lines.ValidNamesSurvive: text is bytes, one a char; runes above 0x7f are never refused, so nothing depends on decoding them.
- Server.Server.Sweep: locks are not modelled; each method is one step.
- Protocol.NoLostWakeUp: takes SetHead as one step, which it is not: `Snapshot` says who is missed; the loops over channels in serve, awaitAck and readAcks are steps of a relation, not methods.
- Protocol.RunKeeps: SetHead is one step here, and taken apart in `Snapshot`; races between Sweep's checks and its installs, and weak memory, are outside the model.
- Lifecycle.RunKeeps: that a provider's calls return, and fairness of any kind.
- Graph.Leaves, Listing, ListingSince and the text of changes are read off the leaf map, `Git.LeafAt`, and have no methods of their own.
- Sockets, listeners, context cancellation, keepalive, byte counters and watchers' events.
- Demonstrations, sample programs and generated code.
