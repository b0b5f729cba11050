// The tree a build works on: nodes with cached hashes and cached entry lists,
// and what it takes for those to describe the node.

module Nodes {
  import opened Basics
  import opened Git
  import opened Replace
  import opened Store

  /** A node under construction. A leaf has a blob; anything else has children,
      in the order they arrived, and the tree it was last stored as. entries is
      what it was stored as, dropped when a child comes or goes. */
  datatype Node = Node(kids: seq<Kid>, entries: Option<seq<Entry>>, blob: Hash, tree: Hash)
  datatype Kid = Kid(name: string, node: Node)

  const Fresh: Node := Node([], None, Zero, Zero)

  function LeafNode(blob: Hash): Node {
    Node([], None, blob, Zero)
  }

  function Slot(kids: seq<Kid>, name: string): (i: nat)
    ensures i <= |kids|
    ensures i < |kids| ==> kids[i].name == name
    ensures forall k :: 0 <= k < i ==> kids[k].name != name
  {
    if kids == [] || kids[0].name == name then 0 else Slot(kids[1..], name) + 1
  }

  predicate Has(n: Node, name: string) {
    Slot(n.kids, name) < |n.kids|
  }

  function KidAt(n: Node, name: string): Node
    requires Has(n, name)
  {
    n.kids[Slot(n.kids, name)].node
  }

  // A new child: the entries no longer describe the node.
  function Put(n: Node, name: string, kid: Node): Node {
    n.(kids := n.kids + [Kid(name, kid)], entries := None)
  }

  // A child swapped for another where it stands.
  function Swap(n: Node, name: string, kid: Node): Node
    requires Has(n, name)
  {
    n.(kids := n.kids[Slot(n.kids, name) := Kid(name, kid)])
  }

  function Set(n: Node, name: string, kid: Node): Node {
    if Has(n, name) then Swap(n, name, kid) else Put(n, name, kid)
  }

  function Drop(n: Node, name: string): Node
    requires Has(n, name)
  {
    var i := Slot(n.kids, name);
    n.(kids := n.kids[..i] + n.kids[i + 1..], entries := None)
  }

  /** The blob at a path beneath a node. */
  function At(n: Node, p: Path): Option<Hash>
    decreases |p|
  {
    if p == [] || !Has(n, p[0]) then None
    else
      var kid := KidAt(n, p[0]);
      if kid.blob == Zero then At(kid, p[1..])
      else if |p| == 1 then Some(kid.blob) else None
  }

  // ----- Shape -----

  /** Names that can be path elements, each once; leaves name blobs. */
  ghost predicate Shaped(n: Node) {
    && (forall i :: 0 <= i < |n.kids| ==> ValidName(n.kids[i].name))
    && (forall i, j :: 0 <= i < j < |n.kids| ==> n.kids[i].name != n.kids[j].name)
    && forall i :: 0 <= i < |n.kids| ==>
         if n.kids[i].node.blob == Zero then Shaped(n.kids[i].node) else IsBlob(n.kids[i].node.blob)
  }

  // ----- Entries -----

  function EntryOf(k: Kid): Entry {
    if k.node.blob != Zero then Entry(k.name, Regular, k.node.blob)
    else Entry(k.name, Dir, k.node.tree)
  }

  /** The entries a node's children amount to as they stand. */
  function Current(kids: seq<Kid>): (es: seq<Entry>)
    ensures |es| == |kids|
    ensures forall i :: 0 <= i < |kids| ==> es[i] == EntryOf(kids[i])
  {
    if kids == [] then [] else [EntryOf(kids[0])] + Current(kids[1..])
  }

  function TreeOf(es: seq<Entry>): Hash {
    Digest(Tree(Sorted(es)))
  }

  // ----- What is settled -----

  // The paths of d that lead through a child.
  ghost function Through(d: set<Path>, name: string): set<Path> {
    set p | p in d && p != [] && p[0] == name :: p[1..]
  }

  ghost predicate Touches(d: set<Path>, name: string) {
    exists p :: p in d && p != [] && p[0] == name
  }

  ghost predicate Quiet(d: set<Path>) {
    forall p :: p in d ==> p == []
  }

  // A cached list still names the children, and is only out of date about
  // those a pending path leads through.
  ghost predicate Tracks(es: seq<Entry>, kids: seq<Kid>, d: set<Path>) {
    && |es| == |kids|
    && forall i :: 0 <= i < |kids| ==> es[i].name == kids[i].name && (Touches(d, kids[i].name) || es[i] == EntryOf(kids[i]))
  }

  /** Every cached hash and list is right, but for the nodes that a path in d
      leads through: those may be behind about the children on such a path, and
      about nothing else. */
  ghost predicate Settled(n: Node, d: set<Path>) {
    && (n.entries.Some? ==> Tracks(n.entries.value, n.kids, d))
    && (Quiet(d) ==> n.tree == TreeOf(Current(n.kids)))
    && forall i :: 0 <= i < |n.kids| && n.kids[i].node.blob == Zero ==>
         Settled(n.kids[i].node, Through(d, n.kids[i].name))
  }

  lemma {:induction false} SettledMore(n: Node, d: set<Path>, e: set<Path>)
    requires Settled(n, d) && forall p :: p in d && p != [] ==> p in e
    ensures Settled(n, e)
  {
    forall i | 0 <= i < |n.kids| && n.kids[i].node.blob == Zero
      ensures Settled(n.kids[i].node, Through(e, n.kids[i].name))
    {
      SettledMore(n.kids[i].node, Through(d, n.kids[i].name), Through(e, n.kids[i].name));
    }
    assert Quiet(e) ==> Quiet(d);
    forall i | 0 <= i < |n.kids| && Touches(d, n.kids[i].name) ensures Touches(e, n.kids[i].name) {
    }
  }

  /** Every node's tree is what its children amount to. */
  ghost predicate Stands(n: Node) {
    && n.tree == TreeOf(Current(n.kids))
    && forall i :: 0 <= i < |n.kids| && n.kids[i].node.blob == Zero ==> Stands(n.kids[i].node)
  }

  lemma {:induction false} SettledStands(n: Node)
    requires Settled(n, {})
    ensures Stands(n)
  {
    assert Quiet({});
    forall i | 0 <= i < |n.kids| && n.kids[i].node.blob == Zero ensures Stands(n.kids[i].node) {
      assert Through({}, n.kids[i].name) == {};
      SettledStands(n.kids[i].node);
    }
  }

  // What is stored is a well-formed tree.
  lemma {:induction false} StandsWellFormed(n: Node)
    requires Shaped(n) && Stands(n)
    ensures WellFormed(n.tree)
  {
    var es := Current(n.kids);
    CurrentFine(n.kids);
    SortedCanonical(es);
    forall i | 0 <= i < |es| ensures KindMatches(es[i]) && WellFormed(es[i].hash) {
      if n.kids[i].node.blob == Zero {
        StandsWellFormed(n.kids[i].node);
      }
    }
    assert forall i :: 0 <= i < |Sorted(es)| ==> Sorted(es)[i] in es;
  }

  lemma LeafStep(n: Node, p: Path)
    requires Shaped(n) && p != [] && n.tree == TreeOf(Current(n.kids))
    ensures LeafAt(n.tree, p) ==
            if !Has(n, p[0]) then None
            else if KidAt(n, p[0]).blob == Zero then LeafAt(KidAt(n, p[0]).tree, p[1..])
            else if |p| == 1 then Some(Entry(p[0], Regular, KidAt(n, p[0]).blob)) else None
  {
    CurrentFind(n, p[0]);
    assert IsTree(n.tree) && n.tree.obj.entries == Sorted(Current(n.kids));
  }

  function AsEntry(p: Path, blob: Option<Hash>): Option<Entry> {
    if p == [] || blob.None? then None else Some(Entry(p[|p| - 1], Regular, blob.value))
  }

  // And it is the node, leaf for leaf.
  lemma {:induction false} StandsLeaf(n: Node, p: Path)
    requires Shaped(n) && Stands(n)
    ensures LeafAt(n.tree, p) == AsEntry(p, At(n, p))
    decreases |p|
  {
    if p != [] {
      LeafStep(n, p);
      if Has(n, p[0]) && KidAt(n, p[0]).blob == Zero {
        StandsLeaf(KidAt(n, p[0]), p[1..]);
        AsEntryTail(p, At(KidAt(n, p[0]), p[1..]));
      }
    }
  }

  lemma AsEntryTail(p: Path, blob: Option<Hash>)
    requires p != [] && (|p| == 1 ==> blob.None?)
    ensures AsEntry(p[1..], blob) == AsEntry(p, blob)
  {
  }

  lemma CurrentFine(kids: seq<Kid>)
    requires forall i :: 0 <= i < |kids| ==> ValidName(kids[i].name)
    requires forall i, j :: 0 <= i < j < |kids| ==> kids[i].name != kids[j].name
    ensures ValidNames(Current(kids)) && UniqueNames(Current(kids))
  {
  }

  // A name is found in the stored list just when it is a child's.
  lemma CurrentFind(n: Node, name: string)
    requires Shaped(n)
    ensures Find(Sorted(Current(n.kids)), name) ==
            if Has(n, name) then Some(EntryOf(n.kids[Slot(n.kids, name)])) else None
  {
    var es := Current(n.kids);
    CurrentFine(n.kids);
    SortedCanonical(es);
    if Has(n, name) {
      var e := es[Slot(n.kids, name)];
      assert e in es && e in Sorted(es);
      FindIsTheOne(Sorted(es), e);
    } else {
      forall e | e in Sorted(es) ensures e.name != name {
        assert e in es;
        var k :| 0 <= k < |es| && es[k] == e;
        assert n.kids[k].name == es[k].name;
      }
    }
  }

  // ----- Placing leaves -----

  /** The node with a blob at a path, whatever is missing above it added. */
  function Inserted(n: Node, p: Path, blob: Hash): Node
    requires p != []
    decreases |p|
  {
    if |p| == 1 then
      Set(n, p[0], if Has(n, p[0]) then KidAt(n, p[0]).(blob := blob) else LeafNode(blob))
    else
      Set(n, p[0], Inserted(if Has(n, p[0]) then KidAt(n, p[0]) else Fresh, p[1..], blob))
  }

  // No leaf stands on the way to p, and nothing but a leaf stands at it.
  ghost predicate Fits(n: Node, p: Path)
    decreases |p|
  {
    p != [] && (Has(n, p[0]) ==>
      if |p| == 1 then KidAt(n, p[0]).blob != Zero
      else KidAt(n, p[0]).blob == Zero && Fits(KidAt(n, p[0]), p[1..]))
  }

  lemma SetKids(n: Node, name: string, kid: Node)
    ensures Has(Set(n, name, kid), name) && KidAt(Set(n, name, kid), name) == kid
    ensures forall other :: other != name ==>
              && (Has(Set(n, name, kid), other) <==> Has(n, other))
              && (Has(n, other) ==> KidAt(Set(n, name, kid), other) == KidAt(n, other))
  {
    if Has(n, name) {
      forall other ensures Slot(n.kids[Slot(n.kids, name) := Kid(name, kid)], other) == Slot(n.kids, other) {
        SlotSwap(n.kids, Slot(n.kids, name), kid, other);
      }
    } else {
      forall other ensures Slot(n.kids + [Kid(name, kid)], other) ==
                           if Has(n, other) || other == name then Slot(n.kids, other) else |n.kids| + 1
      {
        SlotPut(n.kids, Kid(name, kid), other);
      }
    }
  }

  lemma {:induction false} SlotSwap(kids: seq<Kid>, i: nat, kid: Node, name: string)
    requires i < |kids|
    ensures Slot(kids[i := Kid(kids[i].name, kid)], name) == Slot(kids, name)
  {
    var now := kids[i := Kid(kids[i].name, kid)];
    if i > 0 {
      assert now[1..] == kids[1..][i - 1 := Kid(kids[i].name, kid)];
      SlotSwap(kids[1..], i - 1, kid, name);
    } else {
      assert now[1..] == kids[1..];
    }
  }

  lemma {:induction false} SlotPut(kids: seq<Kid>, kid: Kid, name: string)
    ensures Slot(kids + [kid], name) ==
            if Slot(kids, name) < |kids| || name == kid.name then Slot(kids, name) else |kids| + 1
  {
    if kids != [] {
      assert (kids + [kid])[1..] == kids[1..] + [kid];
      SlotPut(kids[1..], kid, name);
    } else {
      assert ([] + [kid])[1..] == [];
    }
  }

  lemma {:induction false} InsertedAt(n: Node, p: Path, blob: Hash, q: Path)
    requires Fits(n, p) && blob != Zero
    ensures At(Inserted(n, p, blob), q) == if q == p then Some(blob) else At(n, q)
    decreases |p|
  {
    var kid := if Has(n, p[0]) then KidAt(n, p[0]) else Fresh;
    var m := Inserted(n, p, blob);
    if q != [] {
      assert p == [p[0]] + p[1..] && q == [q[0]] + q[1..];
      if |p| == 1 {
        SetKids(n, p[0], if Has(n, p[0]) then kid.(blob := blob) else LeafNode(blob));
      } else {
        SetKids(n, p[0], Inserted(kid, p[1..], blob));
        InsertedBlob(kid, p[1..], blob);
        if q[0] == p[0] {
          InsertedAt(kid, p[1..], blob, q[1..]);
        }
      }
    }
  }

  lemma InsertedBlob(n: Node, p: Path, blob: Hash)
    requires p != []
    ensures Inserted(n, p, blob).blob == n.blob
  {
  }

  ghost predicate Distinct(kids: seq<Kid>) {
    forall i, j :: 0 <= i < j < |kids| ==> kids[i].name != kids[j].name
  }

  lemma SetMembers(n: Node, name: string, kid: Node)
    requires Distinct(n.kids)
    ensures Distinct(Set(n, name, kid).kids)
    ensures forall i :: 0 <= i < |Set(n, name, kid).kids| ==>
              Set(n, name, kid).kids[i] == Kid(name, kid) || Set(n, name, kid).kids[i] in n.kids
  {
    if !Has(n, name) {
      SlotMiss(n.kids, name);
    }
  }

  lemma {:induction false} SlotMiss(kids: seq<Kid>, name: string)
    requires Slot(kids, name) == |kids|
    ensures forall k :: 0 <= k < |kids| ==> kids[k].name != name
  {
  }

  ghost predicate ShapedKid(k: Kid) {
    ValidName(k.name) && if k.node.blob == Zero then Shaped(k.node) else IsBlob(k.node.blob)
  }

  lemma SetShaped(n: Node, name: string, kid: Node)
    requires Shaped(n) && ShapedKid(Kid(name, kid))
    ensures Shaped(Set(n, name, kid))
  {
    SetMembers(n, name, kid);
    assert forall k :: k in n.kids ==> ShapedKid(k);
    var kids := Set(n, name, kid).kids;
    assert forall i :: 0 <= i < |kids| ==> ShapedKid(kids[i]);
  }

  /** Every node but the top has a leaf beneath it. */
  ghost predicate Bushy(n: Node) {
    forall i :: 0 <= i < |n.kids| && n.kids[i].node.blob == Zero ==>
      Bears(n.kids[i].node) && Bushy(n.kids[i].node)
  }

  ghost predicate Bears(n: Node) {
    exists p :: At(n, p).Some?
  }

  lemma {:induction false} InsertedShaped(n: Node, p: Path, blob: Hash)
    requires Shaped(n) && IsBlob(blob) && p != [] && forall i :: 0 <= i < |p| ==> ValidName(p[i])
    ensures Shaped(Inserted(n, p, blob))
    decreases |p|
  {
    if |p| == 1 {
      SetShaped(n, p[0], if Has(n, p[0]) then KidAt(n, p[0]).(blob := blob) else LeafNode(blob));
    } else {
      var kid := if Has(n, p[0]) then KidAt(n, p[0]) else Fresh;
      InsertedBlob(kid, p[1..], blob);
      if kid.blob == Zero {
        InsertedShaped(kid, p[1..], blob);
      }
      SetShaped(n, p[0], Inserted(kid, p[1..], blob));
    }
  }

  lemma {:induction false} InsertedBushy(n: Node, p: Path, blob: Hash)
    requires Shaped(n) && Bushy(n) && Fits(n, p) && blob != Zero
    ensures Bushy(Inserted(n, p, blob))
    decreases |p|
  {
    if |p| == 1 {
      SetMembers(n, p[0], if Has(n, p[0]) then KidAt(n, p[0]).(blob := blob) else LeafNode(blob));
    } else {
      var kid := if Has(n, p[0]) then KidAt(n, p[0]) else Fresh;
      var below := Inserted(kid, p[1..], blob);
      InsertedBushy(kid, p[1..], blob);
      InsertedAt(kid, p[1..], blob, p[1..]);
      assert At(below, p[1..]).Some?;
      SetMembers(n, p[0], below);
    }
  }

  lemma AtUnder(n: Node, name: string, r: Path)
    requires Has(n, name) && KidAt(n, name).blob == Zero
    ensures At(n, [name] + r) == At(KidAt(n, name), r)
  {
    assert ([name] + r)[1..] == r;
  }

  // Where no leaf's path leads through another, a new leaf's place is free.
  lemma {:induction false} FitsWhereFree(n: Node, p: Path)
    requires Shaped(n) && Bushy(n) && p != []
    requires forall q :: At(n, q).Some? && (q <= p || p <= q) ==> q == p
    ensures Fits(n, p)
    decreases |p|
  {
    if Has(n, p[0]) {
      var kid := KidAt(n, p[0]);
      if |p| == 1 {
        forall r ensures kid.blob == Zero ==> At(kid, r).None? {
          if kid.blob == Zero { AtUnder(n, p[0], r); }
          assert p <= [p[0]] + r;
        }
        assert kid.blob == Zero ==> !Bears(kid);
      } else {
        var first := [p[0]];
        assert first <= p && first != p;
        assert kid.blob != Zero ==> At(n, first).Some?;
        forall q | At(kid, q).Some? && (q <= p[1..] || p[1..] <= q) ensures q == p[1..] {
          var r := [p[0]] + q;
          AtUnder(n, p[0], q);
          assert r[1..] == q && p == [p[0]] + p[1..];
          assert r <= p || p <= r;
        }
        FitsWhereFree(kid, p[1..]);
      }
    }
  }

  // ----- Storing a whole tree -----

  /** The node with every tree beneath it stored and remembered. */
  function Persisted(n: Node): Node {
    var kids := PersistedKids(n.kids);
    n.(kids := kids, entries := Some(Current(kids)), tree := TreeOf(Current(kids)))
  }

  function PersistedKids(kids: seq<Kid>): (r: seq<Kid>)
    ensures |r| == |kids|
    ensures forall i :: 0 <= i < |kids| ==>
              r[i] == if kids[i].node.blob != Zero then kids[i] else Kid(kids[i].name, Persisted(kids[i].node))
  {
    if kids == [] then []
    else
      [if kids[0].node.blob != Zero then kids[0] else Kid(kids[0].name, Persisted(kids[0].node))] + PersistedKids(kids[1..])
  }

  lemma {:induction false} PersistedSettled(n: Node)
    ensures Settled(Persisted(n), {})
  {
    var m := Persisted(n);
    forall i | 0 <= i < |m.kids| && m.kids[i].node.blob == Zero
      ensures Settled(m.kids[i].node, Through({}, m.kids[i].name))
    {
      assert Through({}, m.kids[i].name) == {};
      PersistedSettled(n.kids[i].node);
    }
  }

  lemma {:induction false} PersistedShaped(n: Node)
    requires Shaped(n)
    ensures Shaped(Persisted(n))
  {
    forall i | 0 <= i < |n.kids| && n.kids[i].node.blob == Zero ensures Shaped(Persisted(n.kids[i].node)) {
      PersistedShaped(n.kids[i].node);
    }
  }

  lemma {:induction false} PersistedSlot(kids: seq<Kid>, name: string)
    ensures Slot(PersistedKids(kids), name) == Slot(kids, name)
  {
    if kids != [] { PersistedSlot(kids[1..], name); }
  }

  lemma {:induction false} PersistedAt(n: Node, p: Path)
    ensures At(Persisted(n), p) == At(n, p)
    decreases |p|
  {
    if p != [] {
      PersistedSlot(n.kids, p[0]);
      if Has(n, p[0]) && KidAt(n, p[0]).blob == Zero {
        PersistedAt(KidAt(n, p[0]), p[1..]);
      }
    }
  }

  // A tree stored from nodes that all bear leaves has no empty directory.
  lemma {:induction false} StandsNoEmptyDirs(n: Node)
    requires Shaped(n) && Stands(n) && Bushy(n)
    ensures NoEmptyDirs(n.tree)
  {
    var es := Current(n.kids);
    assert forall i :: 0 <= i < |Sorted(es)| ==> Sorted(es)[i] in es;
    forall i | 0 <= i < |es| && es[i].mode.Dir? ensures HasLeaf(es[i].hash) && NoEmptyDirs(es[i].hash) {
      var kid := n.kids[i].node;
      var p :| At(kid, p).Some?;
      StandsLeaf(kid, p);
      assert LeafAt(kid.tree, p).Some?;
      StandsNoEmptyDirs(kid);
    }
  }

  lemma {:induction false} PersistedBushy(n: Node)
    requires Bushy(n)
    ensures Bushy(Persisted(n))
  {
    forall i | 0 <= i < |n.kids| && n.kids[i].node.blob == Zero
      ensures Bears(Persisted(n.kids[i].node)) && Bushy(Persisted(n.kids[i].node))
    {
      PersistedBushy(n.kids[i].node);
      var p :| At(n.kids[i].node, p).Some?;
      PersistedAt(n.kids[i].node, p);
    }
  }

  // ----- Changing one place -----

  /** What a refresh does at a path: puts a subtree there, gives the leaf there
      another blob, or takes away whatever is there. */
  datatype Edit = Graft(node: Node) | Reblob(blob: Hash) | Remove

  /** None is a place that is not in the tree. */
  function Edited(n: Node, p: Path, e: Edit): Option<Node>
    requires p != []
    decreases |p|
  {
    if |p| == 1 then
      match e
      case Graft(kid) => Some(Set(n, p[0], kid))
      case Reblob(blob) =>
        if Has(n, p[0]) then Some(Swap(n, p[0], KidAt(n, p[0]).(blob := blob, kids := []))) else None
      case Remove => Some(if Has(n, p[0]) then Drop(n, p[0]) else n)
    else if !Has(n, p[0]) then
      if e.Remove? then Some(n) else None
    else
      match Edited(KidAt(n, p[0]), p[1..], e)
      case None => None
      case Some(kid) => Some(Swap(n, p[0], kid))
  }

  // No leaf stands on the way to p.
  ghost predicate Open(n: Node, p: Path)
    decreases |p|
  {
    |p| > 1 && Has(n, p[0]) ==> KidAt(n, p[0]).blob == Zero && Open(KidAt(n, p[0]), p[1..])
  }

  ghost predicate FineEdit(e: Edit) {
    match e
    case Graft(kid) => kid.blob == Zero && Shaped(kid) && Settled(kid, {})
    case Reblob(blob) => IsBlob(blob)
    case Remove => true
  }

  // What stands beneath the place afterwards.
  function Beneath(e: Edit, q: Path): Option<Hash> {
    match e
    case Graft(kid) => At(kid, q)
    case Reblob(blob) => if q == [] then Some(blob) else None
    case Remove => None
  }

  function Without(kids: seq<Kid>, i: nat): seq<Kid>
    requires i < |kids|
  {
    kids[..i] + kids[i + 1..]
  }

  lemma WithoutLater(kids: seq<Kid>, i: nat)
    requires 0 < i < |kids|
    ensures Without(kids, i) == [kids[0]] + Without(kids[1..], i - 1)
  {
  }

  // No other child goes by this one's name.
  ghost predicate Alone(kids: seq<Kid>, i: nat)
    requires i < |kids|
  {
    forall j :: 0 <= j < |kids| && j != i ==> kids[j].name != kids[i].name
  }

  lemma AloneLater(kids: seq<Kid>, i: nat)
    requires 0 < i < |kids| && Alone(kids, i)
    ensures Alone(kids[1..], i - 1) && kids[0].name != kids[i].name
  {
  }

  lemma SlotDropFirst(kids: seq<Kid>, name: string)
    requires kids != [] && Alone(kids, 0)
    ensures name == kids[0].name ==> Slot(kids[1..], name) == |kids[1..]|
  {
    if name == kids[0].name {
      SlotNone(kids[1..], name);
    }
  }

  lemma {:induction false} SlotDrop(kids: seq<Kid>, i: nat, name: string)
    requires i < |kids| && Alone(kids, i)
    ensures var rest := Without(kids, i);
            if name == kids[i].name then Slot(rest, name) == |rest|
            else (Slot(rest, name) < |rest| <==> Slot(kids, name) < |kids|) &&
                 (Slot(rest, name) < |rest| ==> rest[Slot(rest, name)] == kids[Slot(kids, name)])
    decreases i
  {
    if i == 0 {
      assert Without(kids, 0) == kids[1..];
      SlotDropFirst(kids, name);
    } else {
      AloneLater(kids, i);
      var fewer := kids[1..];
      SlotDrop(fewer, i - 1, name);
      WithoutLater(kids, i);
      SlotFirst(kids[0], Without(fewer, i - 1), name);
    }
  }

  lemma SlotFirst(kid: Kid, rest: seq<Kid>, name: string)
    ensures Slot([kid] + rest, name) == if kid.name == name then 0 else 1 + Slot(rest, name)
  {
    assert ([kid] + rest)[1..] == rest;
  }

  lemma {:induction false} SlotNone(kids: seq<Kid>, name: string)
    requires forall k :: 0 <= k < |kids| ==> kids[k].name != name
    ensures Slot(kids, name) == |kids|
  {
    if kids != [] { SlotNone(kids[1..], name); }
  }

  lemma DropKids(n: Node, name: string)
    requires Distinct(n.kids) && Has(n, name)
    ensures !Has(Drop(n, name), name)
    ensures forall other :: other != name ==>
              && (Has(Drop(n, name), other) <==> Has(n, other))
              && (Has(n, other) ==> KidAt(Drop(n, name), other) == KidAt(n, other))
  {
    var i := Slot(n.kids, name);
    forall other ensures other != name ==>
              && (Has(Drop(n, name), other) <==> Has(n, other))
              && (Has(n, other) ==> KidAt(Drop(n, name), other) == KidAt(n, other))
    {
      SlotDrop(n.kids, i, other);
    }
    SlotDrop(n.kids, i, name);
  }

  lemma EditedHere(n: Node, name: string, e: Edit, q: Path)
    requires Shaped(n) && FineEdit(e) && q != [] && Edited(n, [name], e).Some?
    ensures At(Edited(n, [name], e).value, q) == if q[0] == name then Beneath(e, q[1..]) else At(n, q)
  {
    assert |q| == 1 <==> q[1..] == [];
    match e
    case Graft(kid) => SetKids(n, name, kid);
    case Reblob(blob) => SetKids(n, name, KidAt(n, name).(blob := blob, kids := []));
    case Remove => if Has(n, name) { DropKids(n, name); }
  }

  // Another child in a child's place shows there and nowhere else.
  lemma AtSwap(n: Node, name: string, kid: Node, q: Path)
    requires Has(n, name) && kid.blob == KidAt(n, name).blob
    ensures q != [] && q[0] == name && kid.blob == Zero ==> At(Swap(n, name, kid), q) == At(kid, q[1..])
    ensures q == [] || q[0] != name || kid.blob != Zero ==> At(Swap(n, name, kid), q) == At(n, q)
  {
    SetKids(n, name, kid);
  }

  lemma PrefixSteps(p: Path, q: Path)
    requires p != [] && q != []
    ensures p <= q <==> p[0] == q[0] && p[1..] <= q[1..]
    ensures p <= q ==> q[|p|..] == q[1..][|p| - 1..]
  {
    assert p == [p[0]] + p[1..] && q == [q[0]] + q[1..];
  }

  // One step down: what an edit does beneath a child is what it does here.
  lemma EditedDeeper(n: Node, p: Path, e: Edit, q: Path)
    requires |p| > 1 && q != [] && Has(n, p[0]) && KidAt(n, p[0]).blob == Zero && Edited(n, p, e).Some?
    requires q[0] == p[0] ==>
               At(Edited(KidAt(n, p[0]), p[1..], e).value, q[1..]) ==
               if p[1..] <= q[1..] then Beneath(e, q[1..][|p| - 1..]) else At(KidAt(n, p[0]), q[1..])
    ensures At(Edited(n, p, e).value, q) == if p <= q then Beneath(e, q[|p|..]) else At(n, q)
  {
    PrefixSteps(p, q);
    EditedBlob(KidAt(n, p[0]), p[1..], e);
    AtSwap(n, p[0], Edited(KidAt(n, p[0]), p[1..], e).value, q);
  }

  // Only what lies at or beneath the place changes.
  lemma {:induction false} EditedAt(n: Node, p: Path, e: Edit, q: Path)
    requires Shaped(n) && Open(n, p) && FineEdit(e) && p != [] && Edited(n, p, e).Some?
    ensures At(Edited(n, p, e).value, q) == if p <= q then Beneath(e, q[|p|..]) else At(n, q)
    decreases |p|
  {
    if q == [] {
    } else if |p| == 1 {
      EditedLast(n, p, e, q);
    } else if Has(n, p[0]) {
      ShapedBelow(n, p[0]);
      if q[0] == p[0] {
        EditedAt(KidAt(n, p[0]), p[1..], e, q[1..]);
      }
      EditedDeeper(n, p, e, q);
    } else {
      PrefixSteps(p, q);
    }
  }

  lemma EditedLast(n: Node, p: Path, e: Edit, q: Path)
    requires Shaped(n) && FineEdit(e) && |p| == 1 && q != [] && Edited(n, p, e).Some?
    ensures At(Edited(n, p, e).value, q) == if p <= q then Beneath(e, q[|p|..]) else At(n, q)
  {
    assert p == [p[0]];
    EditedHere(n, p[0], e, q);
    PrefixSteps(p, q);
  }

  lemma ShapedBelow(n: Node, name: string)
    requires Shaped(n) && Has(n, name)
    ensures KidAt(n, name).blob == Zero ==> Shaped(KidAt(n, name))
  {
  }

  lemma EditedBlob(n: Node, p: Path, e: Edit)
    requires p != [] && Edited(n, p, e).Some?
    ensures Edited(n, p, e).value.blob == n.blob
  {
  }

  lemma {:induction false} EditedShaped(n: Node, p: Path, e: Edit)
    requires Shaped(n) && FineEdit(e) && p != [] && Edited(n, p, e).Some?
    requires forall i :: 0 <= i < |p| ==> ValidName(p[i])
    ensures Shaped(Edited(n, p, e).value)
    decreases |p|
  {
    if |p| == 1 {
      match e
      case Graft(kid) => SetShaped(n, p[0], kid);
      case Reblob(blob) => SetShaped(n, p[0], KidAt(n, p[0]).(blob := blob, kids := []));
      case Remove =>
    } else if Has(n, p[0]) {
      var kid := KidAt(n, p[0]);
      EditedBlob(kid, p[1..], e);
      if kid.blob == Zero {
        EditedShaped(kid, p[1..], e);
      }
      SetShaped(n, p[0], Edited(kid, p[1..], e).value);
    }
  }

  lemma ThroughPlus(d: set<Path>, p: Path, name: string)
    requires p != []
    ensures Through(d + {p}, name) == Through(d, name) + if p[0] == name then {p[1..]} else {}
    ensures Touches(d + {p}, name) <==> Touches(d, name) || p[0] == name
  {
    assert p in d + {p};
    forall q ensures q in Through(d + {p}, name) <==> q in Through(d, name) || (p[0] == name && q == p[1..]) {
    }
  }

  // Where a child is already pending, another may stand in for it.
  lemma SwapSettled(n: Node, name: string, kid: Node, d: set<Path>)
    requires Settled(n, d) && Touches(d, name) && Has(n, name)
    requires kid.blob == Zero ==> Settled(kid, Through(d, name))
    ensures Settled(Swap(n, name, kid), d)
  {
    assert !Quiet(d);
  }

  lemma PutSettled(n: Node, name: string, kid: Node, d: set<Path>)
    requires Settled(n, d) && Touches(d, name)
    requires kid.blob == Zero ==> Settled(kid, Through(d, name))
    ensures Settled(Put(n, name, kid), d)
  {
    assert !Quiet(d);
  }

  // A change at p leaves behind only what stands on the way to p.
  lemma {:induction false} EditedSettled(n: Node, p: Path, e: Edit, d: set<Path>)
    requires Settled(n, d) && FineEdit(e) && p != [] && Edited(n, p, e).Some?
    ensures Settled(Edited(n, p, e).value, d + {p})
    decreases |p|
  {
    var m := Edited(n, p, e).value;
    var more := d + {p};
    SettledMore(n, d, more);
    ThroughPlus(d, p, p[0]);
    if |p| == 1 {
      match e
      case Graft(kid) =>
        SettledMore(kid, {}, Through(more, p[0]));
        if Has(n, p[0]) { SwapSettled(n, p[0], kid, more); } else { PutSettled(n, p[0], kid, more); }
      case Reblob(blob) => SwapSettled(n, p[0], KidAt(n, p[0]).(blob := blob, kids := []), more);
      case Remove => assert !Quiet(more);
    } else if Has(n, p[0]) {
      var kid := KidAt(n, p[0]);
      EditedBlob(kid, p[1..], e);
      if kid.blob == Zero {
        EditedSettled(kid, p[1..], e, Through(d, p[0]));
      }
      SwapSettled(n, p[0], Edited(kid, p[1..], e).value, more);
    }
  }

  // ----- Hashing the way up again -----

  /** One node stored from the hashes its children hold, where name is the child
      that has moved. */
  function Restored(n: Node, name: string): Node {
    if n.entries.Some? && Has(n, name) && Placed(n.entries.value, EntryOf(n.kids[Slot(n.kids, name)])) then
      var es := WithMoved(n.entries.value, EntryOf(n.kids[Slot(n.kids, name)]));
      n.(entries := Some(es), tree := TreeOf(es))
    else
      n.(entries := Some(Current(n.kids)), tree := TreeOf(Current(n.kids)))
  }

  /** The nodes from p's parent up to n, stored again one after the other. */
  function Rehashed(n: Node, p: Path): Node
    requires p != []
    decreases |p|
  {
    var m := if |p| > 1 && Has(n, p[0]) then Swap(n, p[0], Rehashed(KidAt(n, p[0]), p[1..])) else n;
    Restored(m, p[0])
  }

  // Settled but for what is said about one child.
  ghost predicate SettledBut(n: Node, name: string, d: set<Path>) {
    && (n.entries.Some? ==>
          && |n.entries.value| == |n.kids|
          && forall i :: 0 <= i < |n.kids| ==>
               && n.entries.value[i].name == n.kids[i].name
               && (n.kids[i].name == name || Touches(d, n.kids[i].name) || n.entries.value[i] == EntryOf(n.kids[i])))
    && forall i :: 0 <= i < |n.kids| && n.kids[i].node.blob == Zero ==>
         Settled(n.kids[i].node, Through(d, n.kids[i].name))
  }

  lemma {:induction false} IndexOfSlot(es: seq<Entry>, kids: seq<Kid>, name: string)
    requires |es| == |kids| && forall i :: 0 <= i < |kids| ==> es[i].name == kids[i].name
    ensures IndexOf(es, name) == Slot(kids, name)
  {
    if kids != [] { IndexOfSlot(es[1..], kids[1..], name); }
  }

  // Storing the node again catches up with that child.
  lemma RestoredSettled(n: Node, name: string, d: set<Path>)
    requires SettledBut(n, name, d) && Distinct(n.kids)
    ensures Settled(Restored(n, name), d)
  {
    var m := Restored(n, name);
    if n.entries.Some? && Has(n, name) && Placed(n.entries.value, EntryOf(n.kids[Slot(n.kids, name)])) {
      IndexOfSlot(n.entries.value, n.kids, name);
      var es := m.entries.value;
      assert Tracks(es, n.kids, d);
      if Quiet(d) {
        assert forall i :: 0 <= i < |n.kids| ==> !Touches(d, n.kids[i].name);
        assert es == Current(n.kids);
      }
    }
  }

  // With one path done with, every child but the one it leads to is settled.
  lemma OthersSettled(n: Node, p: Path, d: set<Path>)
    requires p != [] && Settled(n, d + {p})
    ensures forall i :: 0 <= i < |n.kids| && n.kids[i].node.blob == Zero && (n.kids[i].name != p[0] || |p| == 1) ==>
              Settled(n.kids[i].node, Through(d, n.kids[i].name))
    ensures forall name :: name != p[0] ==> (Touches(d + {p}, name) <==> Touches(d, name))
  {
    forall name { ThroughPlus(d, p, name); }
    forall i | 0 <= i < |n.kids| && n.kids[i].node.blob == Zero && (n.kids[i].name != p[0] || |p| == 1)
      ensures Settled(n.kids[i].node, Through(d, n.kids[i].name))
    {
      SettledMore(n.kids[i].node, Through(d + {p}, n.kids[i].name), Through(d, n.kids[i].name));
    }
  }

  lemma StaysSettledBut(n: Node, p: Path, d: set<Path>)
    requires Shaped(n) && p != [] && Settled(n, d + {p}) && (|p| == 1 || !Has(n, p[0]))
    ensures SettledBut(n, p[0], d)
  {
    OthersSettled(n, p, d);
    HasName(n, p[0]);
  }

  lemma HasName(n: Node, name: string)
    ensures Has(n, name) <==> exists i :: 0 <= i < |n.kids| && n.kids[i].name == name
  {
    if !Has(n, name) {
      forall i | 0 <= i < |n.kids| ensures n.kids[i].name != name {
        SlotAbsent(n.kids, name, i);
      }
    }
  }

  lemma {:induction false} SlotAbsent(kids: seq<Kid>, name: string, i: nat)
    requires i < |kids| && Slot(kids, name) == |kids|
    ensures kids[i].name != name
  {
    if i > 0 {
      SlotAbsent(kids[1..], name, i - 1);
    }
  }

  lemma SwapSettledBut(n: Node, p: Path, below: Node, d: set<Path>)
    requires Shaped(n) && |p| > 1 && Settled(n, d + {p}) && Has(n, p[0]) && below.blob == KidAt(n, p[0]).blob
    requires below.blob == Zero ==> Settled(below, Through(d, p[0]))
    ensures SettledBut(Swap(n, p[0], below), p[0], d)
  {
    OthersSettled(n, p, d);
  }

  // Hashing up from p pays off what p left pending, whatever else still is.
  lemma {:induction false} RehashedSettled(n: Node, p: Path, d: set<Path>)
    requires Shaped(n) && p != [] && Settled(n, d + {p})
    ensures Settled(Rehashed(n, p), d)
    decreases |p|
  {
    if |p| > 1 && Has(n, p[0]) {
      var kid := KidAt(n, p[0]);
      var below := Rehashed(kid, p[1..]);
      ThroughPlus(d, p, p[0]);
      if kid.blob == Zero {
        RehashedSettled(kid, p[1..], Through(d, p[0]));
      }
      RehashedBlob(kid, p[1..]);
      SwapSettledBut(n, p, below, d);
      RestoredSettled(Swap(n, p[0], below), p[0], d);
    } else {
      StaysSettledBut(n, p, d);
      RestoredSettled(n, p[0], d);
    }
  }

  lemma {:induction false} RehashedShape(n: Node, p: Path)
    requires Shaped(n) && p != []
    ensures Shaped(Rehashed(n, p)) && Rehashed(n, p).blob == n.blob
    decreases |p|
  {
    if |p| > 1 && Has(n, p[0]) {
      var kid := KidAt(n, p[0]);
      if kid.blob == Zero {
        RehashedShape(kid, p[1..]);
      } else {
        RehashedBlob(kid, p[1..]);
      }
      SetShaped(n, p[0], Rehashed(kid, p[1..]));
    }
  }

  lemma RehashedBlob(n: Node, p: Path)
    requires p != []
    ensures Rehashed(n, p).blob == n.blob
  {
  }

  lemma RestoredAt(n: Node, name: string, q: Path)
    ensures At(Restored(n, name), q) == At(n, q)
  {
  }

  // Hashing moves no leaf.
  lemma {:induction false} RehashedAt(n: Node, p: Path, q: Path)
    requires p != []
    ensures At(Rehashed(n, p), q) == At(n, q)
    decreases |p|
  {
    if |p| > 1 && Has(n, p[0]) {
      var kid := KidAt(n, p[0]);
      var below := Rehashed(kid, p[1..]);
      RehashedBlob(kid, p[1..]);
      AtSwap(n, p[0], below, q);
      if q != [] && q[0] == p[0] {
        RehashedAt(kid, p[1..], q[1..]);
      }
      RestoredAt(Swap(n, p[0], below), p[0], q);
    } else {
      RestoredAt(n, p[0], q);
    }
  }
}
