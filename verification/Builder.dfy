// Building a value's tree, and building it again without redoing what did not
// change.

module Builder {
  import opened Basics
  import opened Git
  import opened Schema
  import opened Walking
  import opened Replace
  import opened Nodes
  import opened Places

  /** The blob a value's leaf at p is stored as. */
  function BlobAt(c: Codec, t: Type, leaf: bool, v: Value, p: Path): Option<Hash> {
    if Stored(c, t, leaf, v, p).Some? then Some(Digest(Blob(Stored(c, t, leaf, v, p).value))) else None
  }

  /** The node holds exactly the blobs a value stores. */
  ghost predicate Mirrors(n: Node, c: Codec, t: Type, v: Value) {
    forall p :: At(n, p) == BlobAt(c, t, false, v, p)
  }

  /** h is the tree a full build of v stores: well-formed, no directory without
      files, and v's leaves at v's paths. There is only one such hash. */
  ghost predicate IsBuild(h: Hash, c: Codec, t: Type, v: Value) {
    && IsTree(h) && WellFormed(h) && NoEmptyDirs(h)
    && forall p :: LeafAt(h, p) == AsEntry(p, BlobAt(c, t, false, v, p))
  }

  lemma BuildIsUnique(g: Hash, h: Hash, c: Codec, t: Type, v: Value)
    requires IsBuild(g, c, t, v) && IsBuild(h, c, t, v)
    ensures g == h
  {
    LeavesDecideTree(g, h);
  }

  // ----- Growing a tree from leaves -----

  // Paths that can be placed one after another: valid, and none through
  // another.
  ghost predicate Plantable(ls: seq<Leaf>) {
    && (forall l :: l in ls ==> forall i :: 0 <= i < |l.path| ==> ValidName(l.path[i]))
    && (forall l, m :: l in ls && m in ls && l.path <= m.path ==> l == m)
  }

  // The node holds the first k leaves and no other.
  ghost predicate Holds(n: Node, ls: seq<Leaf>, k: nat)
    requires k <= |ls|
  {
    && (forall i :: 0 <= i < k ==> At(n, ls[i].path) == Some(Digest(Blob(ls[i].content))))
    && (forall q :: At(n, q).Some? ==> exists i :: 0 <= i < k && ls[i].path == q)
  }

  lemma PlantFits(n: Node, ls: seq<Leaf>, k: nat)
    requires k < |ls| && Shaped(n) && Bushy(n) && Holds(n, ls, k) && Plantable(ls) && ls[k].path != []
    ensures Fits(n, ls[k].path)
  {
    var p := ls[k].path;
    forall q | At(n, q).Some? && (q <= p || p <= q) ensures q == p {
      var i :| 0 <= i < k && ls[i].path == q;
      assert ls[i] in ls && ls[k] in ls;
    }
    FitsWhereFree(n, p);
  }

  lemma PlantHolds(n: Node, ls: seq<Leaf>, k: nat)
    requires k < |ls| && Holds(n, ls, k) && Plantable(ls) && Fits(n, ls[k].path)
    ensures Holds(Inserted(n, ls[k].path, Digest(Blob(ls[k].content))), ls, k + 1)
  {
    var p, blob := ls[k].path, Digest(Blob(ls[k].content));
    var m := Inserted(n, p, blob);
    forall i | 0 <= i < k + 1 ensures At(m, ls[i].path) == Some(Digest(Blob(ls[i].content))) {
      InsertedAt(n, p, blob, ls[i].path);
      assert ls[i] in ls && ls[k] in ls;
    }
    forall q | At(m, q).Some? ensures exists i :: 0 <= i < k + 1 && ls[i].path == q {
      InsertedAt(n, p, blob, q);
    }
  }

  lemma PlantOne(n: Node, ls: seq<Leaf>, k: nat)
    requires k < |ls| && Shaped(n) && Bushy(n) && Holds(n, ls, k) && Plantable(ls) && ls[k].path != []
    ensures var m := Inserted(n, ls[k].path, Digest(Blob(ls[k].content)));
            Shaped(m) && Bushy(m) && Holds(m, ls, k + 1)
  {
    var blob := Digest(Blob(ls[k].content));
    assert ls[k] in ls;
    PlantFits(n, ls, k);
    PlantHolds(n, ls, k);
    InsertedShaped(n, ls[k].path, blob);
    InsertedBushy(n, ls[k].path, blob);
  }

  lemma ListedPlantable(ls: seq<Leaf>, c: Codec, t: Type, v: Value)
    requires Proper(t) && HasType(t, false, v) && KeysValid(t, false, v) && Lists(ls, [], c, t, false, v)
    ensures Plantable(ls)
  {
    forall l | l in ls ensures forall i :: 0 <= i < |l.path| ==> ValidName(l.path[i]) {
      assert l.path[0..] == l.path;
      StoredNamesValid(c, t, false, v, l.path);
    }
    forall l, m | l in ls && m in ls && l.path <= m.path ensures l == m {
      assert l.path[0..] == l.path && m.path[0..] == m.path;
      StoredPrefixFree(c, t, false, v, l.path, m.path);
    }
  }

  lemma ListedMirrors(n: Node, ls: seq<Leaf>, c: Codec, t: Type, v: Value)
    requires Lists(ls, [], c, t, false, v) && Holds(n, ls, |ls|)
    ensures Mirrors(n, c, t, v)
  {
    forall p ensures At(n, p) == BlobAt(c, t, false, v, p) {
      if Stored(c, t, false, v, p).Some? {
        var l := Leaf([] + p, Stored(c, t, false, v, p).value);
        assert l in ls && l.path == p;
      }
      if At(n, p).Some? {
        var i :| 0 <= i < |ls| && ls[i].path == p;
        assert ls[i] in ls && p[0..] == p;
      }
    }
  }

  // ----- What the store holds -----

  ghost predicate EntriesHeld(es: seq<Entry>, held: set<Hash>) {
    forall i :: 0 <= i < |es| ==> KindMatches(es[i]) && es[i].hash in held
  }

  /** Every hash a node records is of an object held. */
  ghost predicate Backed(n: Node, held: set<Hash>)
    decreases n, 0
  {
    && (n.entries.Some? ==> EntriesHeld(n.entries.value, held))
    && forall i :: 0 <= i < |n.kids| ==> KidBacked(n.kids[i].node, held)
  }

  ghost predicate KidBacked(kid: Node, held: set<Hash>)
    decreases kid, 1
  {
    if kid.blob != Zero then IsBlob(kid.blob) && kid.blob in held
    else IsTree(kid.tree) && kid.tree in held && Backed(kid, held)
  }

  lemma {:induction false} BackedMore(n: Node, held: set<Hash>, more: set<Hash>)
    requires Backed(n, held) && held <= more
    ensures Backed(n, more)
    decreases n, 0
  {
    forall i | 0 <= i < |n.kids| ensures KidBacked(n.kids[i].node, more) {
      KidBackedMore(n.kids[i].node, held, more);
    }
  }

  lemma {:induction false} KidBackedMore(kid: Node, held: set<Hash>, more: set<Hash>)
    requires KidBacked(kid, held) && held <= more
    ensures KidBacked(kid, more)
    decreases kid, 1
  {
    if kid.blob == Zero { BackedMore(kid, held, more); }
  }

  lemma BackedKid(n: Node, name: string, kid: Node, held: set<Hash>)
    requires Backed(n, held) && Has(n, name)
    requires KidBacked(kid, held)
    ensures Backed(Swap(n, name, kid), held)
  {
  }

  // The entries backed children amount to can be stored without a gap.
  lemma BackedStores(n: Node, kids: seq<Kid>, held: set<Hash>)
    requires Closed(held) && forall i :: 0 <= i < |kids| ==> KidBacked(kids[i].node, held)
    ensures var es := Current(kids);
            && Closed(held + {TreeOf(es)})
            && Backed(n.(kids := kids, entries := Some(es), tree := TreeOf(es)), held + {TreeOf(es)})
  {
    var es := Current(kids);
    TreeKeepsClosed(held, es);
    forall i | 0 <= i < |kids| ensures KidBacked(kids[i].node, held + {TreeOf(es)}) {
      KidBackedMore(kids[i].node, held, held + {TreeOf(es)});
    }
  }

  ghost predicate BlobsHeld(n: Node, held: set<Hash>) {
    forall i :: 0 <= i < |n.kids| ==>
      if n.kids[i].node.blob != Zero then IsBlob(n.kids[i].node.blob) && n.kids[i].node.blob in held
      else BlobsHeld(n.kids[i].node, held)
  }

  // Grown from the first k leaves, every blob of theirs held.
  ghost predicate Planted(n: Node, ls: seq<Leaf>, k: nat, held: set<Hash>)
    requires k <= |ls|
  {
    Shaped(n) && Bushy(n) && Holds(n, ls, k) && BlobsHeld(n, held)
  }

  // Once everything stands and is held, every cached list is backed.
  lemma {:induction false} StandingBacked(n: Node, held: set<Hash>)
    requires Settled(n, {}) && Shaped(n) && n.tree in held && Closed(held)
    ensures Backed(n, held)
  {
    assert Quiet({});
    assert forall i :: 0 <= i < |n.kids| ==> !Touches({}, n.kids[i].name);
    var es := Current(n.kids);
    forall i | 0 <= i < |es| ensures KindMatches(es[i]) && es[i].hash in held {
      assert es[i] in Sorted(es);
      var k :| 0 <= k < |Sorted(es)| && Sorted(es)[k] == es[i];
      assert KindMatches(n.tree.obj.entries[k]);
    }
    forall i | 0 <= i < |n.kids| ensures KidBacked(n.kids[i].node, held) {
      assert EntryOf(n.kids[i]) == es[i];
      if n.kids[i].node.blob == Zero {
        assert Through({}, n.kids[i].name) == {};
        StandingBacked(n.kids[i].node, held);
      }
    }
  }

  lemma {:induction false} InsertedBlobsHeld(n: Node, p: Path, blob: Hash, held: set<Hash>)
    requires BlobsHeld(n, held) && Distinct(n.kids) && Fits(n, p) && IsBlob(blob) && blob in held
    requires Shaped(n)
    ensures BlobsHeld(Inserted(n, p, blob), held)
    decreases |p|
  {
    var kid := if Has(n, p[0]) then KidAt(n, p[0]) else Fresh;
    if |p| == 1 {
      SetMembers(n, p[0], if Has(n, p[0]) then kid.(blob := blob) else LeafNode(blob));
    } else {
      InsertedBlob(kid, p[1..], blob);
      InsertedBlobsHeld(kid, p[1..], blob, held);
      SetMembers(n, p[0], Inserted(kid, p[1..], blob));
    }
  }

  lemma {:induction false} BlobsHeldMore(n: Node, held: set<Hash>, more: set<Hash>)
    requires BlobsHeld(n, held) && held <= more
    ensures BlobsHeld(n, more)
  {
    forall i | 0 <= i < |n.kids| && n.kids[i].node.blob == Zero ensures BlobsHeld(n.kids[i].node, more) {
      BlobsHeldMore(n.kids[i].node, held, more);
    }
  }

  lemma RestoredBacked(n: Node, name: string, held: set<Hash>)
    requires Backed(n, held) && Closed(held)
    ensures var m := Restored(n, name);
            Closed(held + {m.tree}) && IsTree(m.tree) && Backed(m, held + {m.tree})
  {
    var m := Restored(n, name);
    TreeKeepsClosed(held, m.entries.value);
    BackedMore(n, held, held + {m.tree});
  }

  // ----- Declaring what changed -----

  // Where a pointer points, type included: what a declaration is resolved by.
  type Addr = nat

  // The addresses a value's members have, those that can be walked to.
  ghost predicate Laid(layout: map<Addr, Path>, t: Type, v: Value) {
    forall a :: a in layout && layout[a] != [] ==>
      MemberOn(t, v, layout[a]).Some? && forall i :: 0 <= i < |layout[a]| ==> ValidName(layout[a][i])
  }

  ghost predicate Covers(ds: seq<Path>, q: Path) {
    exists k :: 0 <= k < |ds| && ds[k] <= q
  }

  // The paths from the ith up to the jth.
  ghost function Pending(ds: seq<Path>, i: nat, j: nat): set<Path>
    requires j <= |ds|
  {
    set k | i <= k < j :: ds[k]
  }

  /** The node holds v's leaves at and beneath the declared paths, and what n0
      held everywhere else. */
  ghost predicate Spliced(n: Node, n0: Node, c: Codec, t: Type, v: Value, ds: seq<Path>) {
    forall q :: At(n, q) == if Covers(ds, q) then BlobAt(c, t, false, v, q) else At(n0, q)
  }

  /** Two values store the same everywhere but at and beneath the declared
      paths. */
  ghost predicate AgreeElsewhere(c: Codec, t: Type, u: Value, v: Value, ds: seq<Path>) {
    forall q :: !Covers(ds, q) ==> Stored(c, t, false, u, q) == Stored(c, t, false, v, q)
  }

  // Where the values agree elsewhere, redoing the declared paths is enough.
  lemma SplicedMirrors(n: Node, n0: Node, c: Codec, t: Type, u: Value, v: Value, ds: seq<Path>)
    requires Spliced(n, n0, c, t, v, ds) && Mirrors(n0, c, t, u) && AgreeElsewhere(c, t, u, v, ds)
    ensures Mirrors(n, c, t, v)
  {
    forall p ensures At(n, p) == BlobAt(c, t, false, v, p) {
      if !Covers(ds, p) { assert Stored(c, t, false, u, p) == Stored(c, t, false, v, p); }
    }
  }

  // Leaves stand only where the type has them.
  ghost predicate Typed(n: Node, t: Type) {
    forall q :: At(n, q).Some? ==> IsLeafPath(t, q)
  }

  // So none stands on the way to anything else the type has.
  lemma {:induction false} TypedOpen(n: Node, p: Path)
    requires forall r :: At(n, r).Some? && r <= p ==> r == p
    ensures Open(n, p)
    decreases |p|
  {
    if |p| > 1 && Has(n, p[0]) {
      var first := [p[0]];
      assert first <= p && first != p;
      assert KidAt(n, p[0]).blob != Zero ==> At(n, first).Some?;
      forall r | At(KidAt(n, p[0]), r).Some? && r <= p[1..] ensures r == p[1..] {
        AtUnder(n, p[0], r);
        assert p == [p[0]] + p[1..];
      }
      TypedOpen(KidAt(n, p[0]), p[1..]);
    }
  }

  lemma PathsOpen(n: Node, t: Type, p: Path)
    requires Typed(n, t) && TypeOn(t, p).Some?
    ensures Open(n, p)
  {
    forall r | At(n, r).Some? && r <= p ensures r == p {
      LeafPathEnds(t, r, p);
    }
    TypedOpen(n, p);
  }

  lemma CoversMore(ds: seq<Path>, p: Path, q: Path)
    ensures Covers(ds + [p], q) <==> Covers(ds, q) || p <= q
  {
    var now := ds + [p];
    assert now[|ds|] == p;
    assert forall k :: 0 <= k < |ds| ==> now[k] == ds[k];
  }

  // ----- What redoing a path takes, and what stands afterwards -----

  /** The value stores something at q or beneath it. */
  ghost predicate StoresUnder(c: Codec, t: Type, v: Value, q: Path) {
    exists r :: q <= r && Stored(c, t, false, v, r).Some?
  }

  /** A leaf that is nil. */
  predicate Unset(m: Member) {
    m.leaf && m.value.Whole? && m.value.datum.None?
  }

  /** Whether a path can be redone with nodes standing at these places. What is
      gone, or a nil leaf, always can. A leaf that is set needs a node of its own
      there already; a member with members, nil or not, needs the node above it,
      and keys that can be mapped. */
  ghost predicate CanRedo(at: iset<Path>, t: Type, v: Value, p: Path)
    requires p != []
  {
    match MemberOn(t, v, p)
    case None => true
    case Some(m) =>
      if m.leaf then Unset(m) || p in at else KeysValid(m.typ, false, m.value) && p[..|p| - 1] in at
  }

  // Where nodes stand at and beneath a path just redone.
  ghost predicate Regrown(c: Codec, t: Type, v: Value, p: Path, q: Path) {
    match MemberOn(t, v, p)
    case None => false
    case Some(m) => !Unset(m) && (q == p || (!m.leaf && StoresUnder(c, t, v, q)))
  }

  ghost function Redone(at: iset<Path>, c: Codec, t: Type, v: Value, p: Path): iset<Path> {
    iset q | if p <= q then Regrown(c, t, v, p, q) else q in at
  }

  /** Where nodes stand once the first n of these paths are redone in turn. */
  ghost function RedoneAll(at: iset<Path>, c: Codec, t: Type, v: Value, ds: seq<Path>, n: nat): iset<Path>
    requires n <= |ds|
  {
    if n == 0 then at else Redone(RedoneAll(at, c, t, v, ds, n - 1), c, t, v, ds[n - 1])
  }

  /** Whether each of them can be, when its turn comes. */
  ghost predicate CanRedoAll(at: iset<Path>, c: Codec, t: Type, v: Value, ds: seq<Path>)
    requires [] !in ds
  {
    CanRedoSome(at, c, t, v, ds, |ds|)
  }

  ghost predicate CanRedoSome(at: iset<Path>, c: Codec, t: Type, v: Value, ds: seq<Path>, n: nat)
    requires [] !in ds && n <= |ds|
  {
    forall k :: 0 <= k < n ==> CanRedo(RedoneAll(at, c, t, v, ds, k), t, v, ds[k])
  }

  /** An edit that puts at a path what the value has there: its leaves, and
      nodes for it to stand on. */
  ghost predicate Redoes(e: Edit, c: Codec, t: Type, v: Value, p: Path) {
    FineEdit(e) && LeavesAs(e, c, t, v, p) && NodesAs(e, c, t, v, p)
  }

  ghost predicate LeavesAs(e: Edit, c: Codec, t: Type, v: Value, p: Path) {
    forall q :: Beneath(e, q) == BlobAt(c, t, false, v, p + q)
  }

  ghost predicate NodesAs(e: Edit, c: Codec, t: Type, v: Value, p: Path) {
    forall q :: Grows(e, q) <==> Regrown(c, t, v, p, p + q)
  }

  lemma RedoesAt(e: Edit, c: Codec, t: Type, v: Value, p: Path, q: Path)
    requires Redoes(e, c, t, v, p) && p <= q
    ensures Beneath(e, q[|p|..]) == BlobAt(c, t, false, v, q)
    ensures Grows(e, q[|p|..]) <==> Regrown(c, t, v, p, q)
  {
    assert p + q[|p|..] == q;
  }

  lemma RemoveRedoes(c: Codec, t: Type, v: Value, p: Path)
    requires p != [] && (MemberOn(t, v, p).None? || Unset(MemberOn(t, v, p).value))
    ensures Redoes(Remove, c, t, v, p)
  {
    forall q { StoredBeneath(c, t, v, p, q); }
  }

  lemma ReblobRedoes(c: Codec, t: Type, v: Value, p: Path)
    requires p != [] && MemberOn(t, v, p).Some? && MemberOn(t, v, p).value.leaf
    requires MemberOn(t, v, p).value.value.Whole? && MemberOn(t, v, p).value.value.datum.Some?
    ensures var m := MemberOn(t, v, p).value;
            Redoes(Reblob(Digest(Blob(c.enc(m.typ, m.value.datum.value)))), c, t, v, p)
  {
    forall q { StoredBeneath(c, t, v, p, q); }
    forall q: Path ensures p + q == p <==> q == [] {
      assert |p + q| == |p| + |q|;
    }
  }

  // What a member stores beneath q is what the value does beneath p + q.
  lemma LeadsStores(n: Node, c: Codec, t: Type, v: Value, p: Path, q: Path)
    requires forall r :: At(n, r) == BlobAt(c, t, false, v, p + r)
    ensures Leads(n, q) <==> StoresUnder(c, t, v, p + q)
  {
    if Leads(n, q) {
      var r :| q <= r && At(n, r).Some?;
      assert p + q <= p + r;
    }
    if StoresUnder(c, t, v, p + q) {
      var s :| p + q <= s && Stored(c, t, false, v, s).Some?;
      var r := s[|p|..];
      assert s == p + r && q <= r;
      assert At(n, r).Some?;
    }
  }

  lemma SproutPresent(sprout: Node, c: Codec, t: Type, v: Value, p: Path, q: Path)
    requires p != [] && MemberOn(t, v, p).Some? && !MemberOn(t, v, p).value.leaf
    requires Bushy(sprout) && forall r :: At(sprout, r) == BlobAt(c, t, false, v, p + r)
    ensures Present(sprout, q) <==> Regrown(c, t, v, p, p + q)
  {
    BushyPresent(sprout, q);
    LeadsStores(sprout, c, t, v, p, q);
    assert p + q == p <==> |q| == 0;
  }

  lemma SproutLeaves(sprout: Node, c: Codec, t: Type, v: Value, p: Path)
    requires p != [] && MemberOn(t, v, p).Some?
    requires var m := MemberOn(t, v, p).value; !m.leaf && Mirrors(sprout, c, m.typ, m.value)
    ensures LeavesAs(Graft(sprout), c, t, v, p)
  {
    forall q ensures At(sprout, q) == BlobAt(c, t, false, v, p + q) { StoredBeneath(c, t, v, p, q); }
  }

  lemma SproutNodes(sprout: Node, c: Codec, t: Type, v: Value, p: Path)
    requires p != [] && MemberOn(t, v, p).Some? && !MemberOn(t, v, p).value.leaf
    requires Bushy(sprout) && LeavesAs(Graft(sprout), c, t, v, p)
    ensures NodesAs(Graft(sprout), c, t, v, p)
  {
    forall r ensures At(sprout, r) == BlobAt(c, t, false, v, p + r) {
      assert Beneath(Graft(sprout), r) == At(sprout, r);
    }
    forall q ensures Grows(Graft(sprout), q) <==> Regrown(c, t, v, p, p + q) { SproutPresent(sprout, c, t, v, p, q); }
  }

  lemma RedonePresent(n: Node, p: Path, e: Edit, c: Codec, t: Type, v: Value, q: Path)
    requires Shaped(n) && Open(n, p) && p != [] && Edited(n, p, e).Some? && Redoes(e, c, t, v, p)
    ensures Present(Edited(n, p, e).value, q) <==> if p <= q then Regrown(c, t, v, p, q) else Present(n, q)
  {
    EditedPresent(n, p, e, q);
    if p <= q { RedoesAt(e, c, t, v, p, q); }
  }

  // One more declared path redone: what stands at any one path afterwards.
  lemma SpliceAt(n: Node, m: Node, n0: Node, c: Codec, t: Type, v: Value, ds: seq<Path>, p: Path, e: Edit, q: Path)
    requires Shaped(n) && Open(n, p) && FineEdit(e) && p != [] && Edited(n, p, e) == Some(m)
    requires At(n, q) == if Covers(ds, q) then BlobAt(c, t, false, v, q) else At(n0, q)
    requires p <= q ==> Beneath(e, q[|p|..]) == BlobAt(c, t, false, v, q)
    ensures At(m, q) == if Covers(ds + [p], q) then BlobAt(c, t, false, v, q) else At(n0, q)
    ensures At(m, q) == if p <= q then BlobAt(c, t, false, v, q) else At(n, q)
  {
    EditedAt(n, p, e, q);
    CoversMore(ds, p, q);
  }

  lemma SpliceOne(n: Node, m: Node, n0: Node, c: Codec, t: Type, v: Value, ds: seq<Path>, p: Path, e: Edit)
    requires Shaped(n) && Typed(n, t) && Spliced(n, n0, c, t, v, ds)
    requires p != [] && Edited(n, p, e) == Some(m) && TypeOn(t, p).Some? && Redoes(e, c, t, v, p)
    ensures Spliced(m, n0, c, t, v, ds + [p]) && Typed(m, t)
  {
    PathsOpen(n, t, p);
    forall q
      ensures At(m, q) == if Covers(ds + [p], q) then BlobAt(c, t, false, v, q) else At(n0, q)
      ensures At(m, q).Some? ==> IsLeafPath(t, q)
    {
      if p <= q { RedoesAt(e, c, t, v, p, q); }
      SpliceAt(n, m, n0, c, t, v, ds, p, e, q);
      if p <= q && At(m, q).Some? { StoredIsTyped(c, t, v, q); }
    }
  }

  // An edit that redoes a path leaves nodes where that says.
  lemma RedoneStanding(n: Node, p: Path, e: Edit, c: Codec, t: Type, v: Value)
    requires Shaped(n) && Open(n, p) && p != [] && Edited(n, p, e).Some? && Redoes(e, c, t, v, p)
    ensures Standing(Edited(n, p, e).value) == Redone(Standing(n), c, t, v, p)
  {
    forall q { RedonePresent(n, p, e, c, t, v, q); }
  }

  // Where a mirror of the value with no leafless node has its nodes.
  ghost function Built(c: Codec, t: Type, v: Value): iset<Path> {
    iset q | q == [] || StoresUnder(c, t, v, q)
  }

  lemma MirrorLeads(n: Node, c: Codec, t: Type, v: Value)
    requires Mirrors(n, c, t, v)
    ensures forall q :: Leads(n, q) <==> StoresUnder(c, t, v, q)
  {
    assert forall r: Path :: [] + r == r;
    forall q ensures Leads(n, q) <==> StoresUnder(c, t, v, q) { LeadsStores(n, c, t, v, [], q); }
  }

  lemma BuiltStanding(n: Node, c: Codec, t: Type, v: Value)
    requires Bushy(n) && Mirrors(n, c, t, v)
    ensures Standing(n) == Built(c, t, v)
  {
    MirrorLeads(n, c, t, v);
    forall q { BushyPresent(n, q); }
  }

  // At a member with members, or beneath it.
  ghost predicate Within(t: Type, v: Value, d: Path, p: Path) {
    d <= p && MemberOn(t, v, d).Some? && !MemberOn(t, v, d).value.leaf
  }

  /** At one of these paths, or beneath it, and it is a member with members: what
      is taken down again when the paths have been redone. */
  ghost predicate Retaken(t: Type, v: Value, ds: seq<Path>, p: Path) {
    exists k :: 0 <= k < |ds| && Within(t, v, ds[k], p)
  }

  /** The index after these paths were redone: what was taken down again is where
      the layout has it, and every other address where it was. */
  ghost predicate Indexed(index: map<Addr, Path>, was: map<Addr, Path>, layout: map<Addr, Path>, t: Type, v: Value,
        ds: seq<Path>) {
    forall a ::
      var anew := a in layout && Retaken(t, v, ds, layout[a]);
      && (a in index <==> anew || a in was)
      && (a in index ==> index[a] == if anew then layout[a] else was[a])
  }

  lemma RetakenMore(t: Type, v: Value, ds: seq<Path>, d: Path, p: Path)
    ensures Retaken(t, v, ds + [d], p) <==> Retaken(t, v, ds, p) || Retaken(t, v, [d], p)
  {
    var now := ds + [d];
    assert now[|ds|] == d == [d][0];
    assert forall k :: 0 <= k < |ds| ==> now[k] == ds[k];
  }

  lemma IndexedMore(index: map<Addr, Path>, mid: map<Addr, Path>, was: map<Addr, Path>, layout: map<Addr, Path>, t: Type,
        v: Value, ds: seq<Path>, i: nat)
    requires i < |ds| && Indexed(mid, was, layout, t, v, ds[..i]) && Indexed(index, mid, layout, t, v, [ds[i]])
    ensures Indexed(index, was, layout, t, v, ds[..i + 1])
  {
    assert ds[..i] + [ds[i]] == ds[..i + 1];
    forall a | a in layout
      ensures Retaken(t, v, ds[..i + 1], layout[a]) <==> Retaken(t, v, ds[..i], layout[a]) || Retaken(t, v, [ds[i]], layout[a])
    {
      RetakenMore(t, v, ds[..i], ds[i], layout[a]);
    }
  }

  function BeneathIn(layout: map<Addr, Path>, p: Path): (r: map<Addr, Path>)
    ensures forall a :: a in r <==> a in layout && p <= layout[a]
    ensures forall a :: a in r ==> r[a] == layout[a]
  {
    map a | a in layout && p <= layout[a] :: layout[a]
  }

  lemma IndexedHere(index: map<Addr, Path>, layout: map<Addr, Path>, t: Type, v: Value, p: Path)
    requires MemberOn(t, v, p).Some? && !MemberOn(t, v, p).value.leaf
    ensures Indexed(index + BeneathIn(layout, p), index, layout, t, v, [p])
  {
    assert [p][0] == p;
    assert forall q :: Retaken(t, v, [p], q) <==> p <= q;
  }

  // As far as the first k of these paths redone, one after another.
  ghost predicate Reached(n: Node, n0: Node, c: Codec, t: Type, v: Value, ds: seq<Path>, k: nat)
    requires [] !in ds && k <= |ds|
  {
    && Spliced(n, n0, c, t, v, ds[..k])
    && Standing(n) == RedoneAll(Standing(n0), c, t, v, ds, k)
    && CanRedoSome(Standing(n0), c, t, v, ds, k)
  }

  lemma ReachedNext(n: Node, m: Node, n0: Node, c: Codec, t: Type, v: Value, ds: seq<Path>, k: nat)
    requires [] !in ds && k < |ds| && Reached(n, n0, c, t, v, ds, k)
    requires CanRedo(Standing(n), t, v, ds[k]) && Standing(m) == Redone(Standing(n), c, t, v, ds[k])
    requires Spliced(m, n0, c, t, v, ds[..k + 1])
    ensures Reached(m, n0, c, t, v, ds, k + 1)
  {
  }

  lemma ReachedStops(n: Node, n0: Node, c: Codec, t: Type, v: Value, ds: seq<Path>, k: nat)
    requires [] !in ds && k < |ds| && Reached(n, n0, c, t, v, ds, k) && !CanRedo(Standing(n), t, v, ds[k])
    ensures !CanRedoAll(Standing(n0), c, t, v, ds)
  {
  }

  // ----- The builder -----

  class Builder {
    const codec: Codec
    const typ: Type
    // What the store it writes into holds.
    var held: set<Hash>
    var root: Option<Node>
    var index: map<Addr, Path>

    constructor (codec: Codec, typ: Type, held: set<Hash>)
      ensures this.codec == codec && this.typ == typ && this.held == held
      ensures root == None && index == map[]
    {
      this.codec, this.typ, this.held := codec, typ, held;
      root, index := None, map[];
    }

    /** The tree as last built, nothing about it out of date. */
    ghost predicate Ready()
      reads this
    {
      && root.Some? && root.value.blob == Zero
      && Shaped(root.value) && Settled(root.value, {}) && Typed(root.value, typ)
      && root.value.tree in held && Closed(held)
    }

    /** Stores each leaf's blob and places it. */
    method Plant(ls: seq<Leaf>) returns (n: Node)
      requires Closed(held) && forall l :: l in ls ==> l.path != []
      modifies this`held
      ensures Closed(held) && old(held) <= held && n.blob == Zero
      ensures Plantable(ls) ==> Planted(n, ls, |ls|, held)
    {
      n := Fresh;
      var i := 0;
      while i < |ls|
        invariant 0 <= i <= |ls|
        invariant Closed(held) && old(held) <= held && n.blob == Zero
        invariant Plantable(ls) ==> Planted(n, ls, i, held)
      {
        var blob := Digest(Blob(ls[i].content));
        if Plantable(ls) { PlantStep(n, ls, i, held); }
        InsertedBlob(n, ls[i].path, blob);
        held := held + {blob};
        n := Inserted(n, ls[i].path, blob);
        i := i + 1;
      }
    }

    // What has been stored so far of a node's kids.
    static ghost predicate Partly(kids: seq<Kid>, all: seq<Kid>, held: set<Hash>) {
      && |kids| <= |all| && kids == all[..|kids|]
      && forall k :: 0 <= k < |kids| ==> KidBacked(kids[k].node, held)
    }

    static lemma PartlyMore(kids: seq<Kid>, all: seq<Kid>, before: set<Hash>, held: set<Hash>, kid: Kid)
      requires Partly(kids, all, before) && before <= held && KidBacked(kid.node, held)
      requires |kids| < |all| && all[|kids|] == kid
      ensures Partly(kids + [kid], all, held)
    {
      forall k | 0 <= k < |kids| ensures KidBacked(kids[k].node, held) {
        KidBackedMore(kids[k].node, before, held);
      }
    }

    /** Stores a node and everything beneath it. */
    method StoreNode(n: Node) returns (m: Node)
      requires Closed(held) && BlobsHeld(n, held)
      modifies this`held
      ensures m == Persisted(n)
      ensures Closed(held) && old(held) <= held && m.tree in held && Backed(m, held)
      decreases n, 1
    {
      var kids: seq<Kid> := [];
      ghost var all := PersistedKids(n.kids);
      var i := 0;
      while i < |n.kids|
        invariant 0 <= i <= |n.kids| && |kids| == i
        invariant Closed(held) && old(held) <= held
        invariant Partly(kids, all, held)
      {
        ghost var before := held;
        BlobsHeldMore(n, old(held), held);
        var kid := StoreKid(n, n.kids[i].node);
        PartlyMore(kids, all, before, held, Kid(n.kids[i].name, kid));
        kids := kids + [Kid(n.kids[i].name, kid)];
        i := i + 1;
      }
      assert kids == all;
      var entries := Current(kids);
      BackedStores(n, kids, held);
      held := held + {TreeOf(entries)};
      m := n.(kids := kids, entries := Some(entries), tree := TreeOf(entries));
    }

    method StoreKid(ghost parent: Node, kid: Node) returns (m: Node)
      requires Closed(held) && exists i :: 0 <= i < |parent.kids| && parent.kids[i].node == kid
      requires if kid.blob != Zero then IsBlob(kid.blob) && kid.blob in held else BlobsHeld(kid, held)
      modifies this`held
      ensures m == if kid.blob != Zero then kid else Persisted(kid)
      ensures Closed(held) && old(held) <= held && KidBacked(m, held)
      decreases parent, 0
    {
      if kid.blob != Zero {
        return kid;
      }
      m := StoreNode(kid);
    }

    /** A full build: whatever stood before, success leaves the one build of the
        value standing and the layout as the index. */
    method BuildAll(now: Value, layout: map<Addr, Path>) returns (r: Option<Hash>)
      requires Proper(typ) && HasType(typ, false, now) && Closed(held)
      modifies this
      ensures Closed(held) && old(held) <= held
      ensures r.Some? <==> KeysValid(typ, false, now)
      ensures r.None? ==> root == old(root) && index == old(index)
      ensures r.Some? ==> Ready() && r.value == root.value.tree && index == layout
      ensures r.Some? ==> Mirrors(root.value, codec, typ, now) && IsBuild(r.value, codec, typ, now)
    {
      var ls, fine := Walk(codec, typ, now, []);
      var grown := Plant(ls);
      if !fine {
        return None;
      }
      ListedPlantable(ls, codec, typ, now);
      var n := StoreNode(grown);
      GrownIsBuild(grown, ls, codec, typ, now);
      root, index := Some(n), layout;
      return Some(n.tree);
    }

    /** One declared path: makes the edit that puts there what the value has
        there, or reports that the tree has no place for it. */
    method Refresh(path: Path, now: Value, layout: map<Addr, Path>) returns (ok: bool, ghost e: Edit)
      requires Proper(typ) && HasType(typ, false, now) && Closed(held)
      requires root.Some? && Backed(root.value, held)
      requires path != [] && Open(root.value, path)
      modifies this
      ensures Closed(held) && old(held) <= held && root.Some?
      ensures ok <==> CanRedo(Standing(old(root).value), typ, now, path)
      ensures ok ==> Backed(root.value, held) && Indexed(index, old(index), layout, typ, now, [path])
      ensures ok ==> Redoes(e, codec, typ, now, path) && Edited(old(root).value, path, e) == Some(root.value)
    {
      ok := true;
      var m := MemberOn(typ, now, path);
      if m.Some? { MemberTyped(typ, now, path); }

      if m.None? || (m.value.leaf && m.value.value.datum.None?) {
        // Whatever was there has gone.
        RemoveRedoes(codec, typ, now, path);
        Detach(path);
        e := Remove;
      } else if m.value.leaf {
        ok, e := RefreshLeaf(path, now, m.value);
      } else {
        ok, e := RefreshMembers(path, now, layout, m.value);
      }
    }

    method RefreshLeaf(path: Path, now: Value, m: Member) returns (ok: bool, ghost e: Edit)
      requires Closed(held) && root.Some? && Backed(root.value, held) && path != [] && Open(root.value, path)
      requires MemberOn(typ, now, path) == Some(m) && m.leaf && m.value.Whole? && m.value.datum.Some?
      modifies this`root, this`held
      ensures Closed(held) && old(held) <= held && root.Some? && Backed(root.value, held)
      ensures ok <==> path in Standing(old(root).value)
      ensures ok ==> Redoes(e, codec, typ, now, path) && Edited(old(root).value, path, e) == Some(root.value)
    {
      var blob := Digest(Blob(codec.enc(m.typ, m.value.datum.value)));
      held := held + {blob};
      BackedMore(root.value, old(held), held);
      e := Reblob(blob);
      ReblobRedoes(codec, typ, now, path);
      EditedMeets(root.value, path, e);
      ok := SetBlob(path, blob);
    }

    method RefreshMembers(path: Path, now: Value, layout: map<Addr, Path>, m: Member)
      returns (ok: bool, ghost e: Edit)
      requires Closed(held) && root.Some? && Backed(root.value, held) && path != [] && Open(root.value, path)
      requires MemberOn(typ, now, path) == Some(m) && !m.leaf && Proper(m.typ) && HasType(m.typ, false, m.value)
      modifies this
      ensures Closed(held) && old(held) <= held && root.Some? && Backed(root.value, held)
      ensures ok <==> KeysValid(m.typ, false, m.value) && path[..|path| - 1] in Standing(old(root).value)
      ensures ok ==> Indexed(index, old(index), layout, typ, now, [path])
      ensures ok ==> Redoes(e, codec, typ, now, path) && Edited(old(root).value, path, e) == Some(root.value)
    {
      var sprout;
      ok, sprout := Regrow(m);
      BackedMore(root.value, old(held), held);
      e := Graft(sprout);
      if ok {
        SproutLeaves(sprout, codec, typ, now, path);
        SproutNodes(sprout, codec, typ, now, path);
        EditedMeets(root.value, path, e);
        ok := Attach(path, sprout);
        if ok {
          IndexedHere(index, layout, typ, now, path);
          index := index + BeneathIn(layout, path);
        }
      }
    }

    /** A subtree of its own for a member with members: walked, grown and
        stored. */
    method Regrow(m: Member) returns (ok: bool, sprout: Node)
      requires !m.leaf && Proper(m.typ) && HasType(m.typ, false, m.value) && Closed(held)
      modifies this`held
      ensures Closed(held) && old(held) <= held
      ensures ok <==> KeysValid(m.typ, false, m.value)
      ensures ok ==> FineEdit(Graft(sprout)) && KidBacked(sprout, held)
      ensures ok ==> Bushy(sprout) && Mirrors(sprout, codec, m.typ, m.value)
    {
      var ls, fine := Walk(codec, m.typ, m.value, []);
      sprout := Plant(ls);
      if !fine {
        return false, sprout;
      }
      ListedPlantable(ls, codec, m.typ, m.value);
      var grown := sprout;
      sprout := StoreNode(grown);
      ListedMirrors(grown, ls, codec, m.typ, m.value);
      PersistedShaped(grown);
      PersistedSettled(grown);
      PersistedBushy(grown);
      forall q { PersistedAt(grown, q); }
      return true, sprout;
    }

    /** Removes whatever is at a path. */
    method Detach(path: Path)
      requires root.Some? && Backed(root.value, held) && path != []
      modifies this`root
      ensures root.Some? && Backed(root.value, held)
      ensures Edited(old(root).value, path, Remove) == root
    {
      EditedRemoves(root.value, path);
      EditedBacked(root.value, path, Remove, held);
      root := Edited(root.value, path, Remove);
    }

    /** Gives the leaf at a path another blob. */
    method SetBlob(path: Path, blob: Hash) returns (ok: bool)
      requires root.Some? && Backed(root.value, held) && path != [] && IsBlob(blob) && blob in held
      modifies this`root
      ensures root.Some? && Backed(root.value, held)
      ensures Edited(old(root).value, path, Reblob(blob)) == if ok then root else None
      ensures !ok ==> root == old(root)
    {
      var n := Edited(root.value, path, Reblob(blob));
      if n.None? {
        return false;
      }
      EditedBacked(root.value, path, Reblob(blob), held);
      root := n;
      return true;
    }

    /** Grafts a subtree at a path; refused where its parent is missing. */
    method Attach(path: Path, sprout: Node) returns (ok: bool)
      requires root.Some? && Backed(root.value, held) && path != []
      requires FineEdit(Graft(sprout)) && KidBacked(sprout, held)
      modifies this`root
      ensures root.Some? && Backed(root.value, held)
      ensures Edited(old(root).value, path, Graft(sprout)) == if ok then root else None
      ensures !ok ==> root == old(root)
    {
      var n := Edited(root.value, path, Graft(sprout));
      if n.None? {
        return false;
      }
      EditedBacked(root.value, path, Graft(sprout), held);
      root := n;
      return true;
    }

    /** Stores again the nodes from a path's parent up to n: all a change at the
        path can have moved. */
    method Rehash(n: Node, path: Path) returns (m: Node)
      requires Backed(n, held) && Closed(held) && path != [] && Open(n, path)
      modifies this`held
      ensures m == Rehashed(n, path)
      ensures Closed(held) && old(held) <= held
      ensures Backed(m, held) && IsTree(m.tree) && m.tree in held
      decreases |path|
    {
      m := n;
      if |path| > 1 && Has(n, path[0]) {
        var kid := KidAt(n, path[0]);
        var below := Rehash(kid, path[1..]);
        m := Swap(n, path[0], below);
        RehashedBlob(kid, path[1..]);
        BackedMore(n, old(held), held);
        BackedKid(n, path[0], below, held);
      }
      RestoredBacked(m, path[0], held);
      m := Restored(m, path[0]);
      held := held + {m.tree};
    }

    // The address was some member's at the last build, and still is.
    ghost predicate StillThere(layout: map<Addr, Path>, a: Addr)
      reads this
    {
      a in index && a in layout && index[a] == layout[a]
    }

    // The paths the declared addresses stand at.
    static ghost function Named(layout: map<Addr, Path>, changed: seq<Addr>): seq<Path>
      requires forall k :: 0 <= k < |changed| ==> changed[k] in layout
    {
      seq(|changed|, k requires 0 <= k < |changed| => layout[changed[k]])
    }

    ghost predicate AllThere(layout: map<Addr, Path>, changed: seq<Addr>)
      reads this
    {
      forall k :: 0 <= k < |changed| ==> StillThere(layout, changed[k])
    }

    /** The paths of all these addresses, if every one is what the last build
        and the value agree on. */
    method Resolve(layout: map<Addr, Path>, changed: seq<Addr>) returns (r: Option<seq<Path>>)
      ensures r == if AllThere(layout, changed) then Some(Named(layout, changed)) else None
    {
      var out: seq<Path> := [];
      var i := 0;
      while i < |changed|
        invariant 0 <= i <= |changed| && |out| == i
        invariant forall k :: 0 <= k < i ==> StillThere(layout, changed[k]) && layout[changed[k]] == out[k]
      {
        if changed[i] !in index || changed[i] !in layout || layout[changed[i]] != index[changed[i]] {
          assert !StillThere(layout, changed[i]);
          return None;
        }
        out := out + [index[changed[i]]];
        i := i + 1;
      }
      assert out == Named(layout, changed);
      return Some(out);
    }

    /** Builds: in full where nothing is declared, nothing stands yet, or the
        value itself is declared; otherwise path by path. CanBuild says beforehand
        whether it succeeds. */
    method Build(now: Value, layout: map<Addr, Path>, changed: seq<Addr>)
      returns (r: Option<Hash>, ghost declared: seq<Path>)
      requires Proper(typ) && HasType(typ, false, now) && Laid(layout, typ, now) && Closed(held)
      requires root.Some? && changed != [] ==> Ready()
      modifies this
      ensures Closed(held) && old(held) <= held
      ensures old(root).Some? && changed != [] && old(AllThere(layout, changed)) ==> declared == Named(layout, changed)
      ensures r.Some? <==> old(CanBuild(now, layout, changed))
      ensures r.Some? ==> Ready() && r.value == root.value.tree
      ensures r.Some? && old(root).Some? ==> Spliced(root.value, old(root).value, codec, typ, now, declared)
      ensures r.Some? && old(Whole(layout, changed)) ==>
                && Mirrors(root.value, codec, typ, now) && IsBuild(r.value, codec, typ, now)
                && index == layout
      ensures r.Some? && !old(Whole(layout, changed)) ==>
                Standing(root.value) == RedoneAll(Standing(old(root).value), codec, typ, now, declared, |declared|)
      ensures r.Some? && !old(Whole(layout, changed)) ==> Indexed(index, old(index), layout, typ, now, declared)
    {
      if changed == [] || root.None? {
        r := BuildAll(now, layout);
        declared := [[]];
        WholeCovers(declared);
        return;
      }
      var resolved := Resolve(layout, changed);
      if resolved.None? {
        return None, [];
      }
      declared := resolved.value;
      if [] in resolved.value {
        r := BuildAll(now, layout);
        WholeCovers(declared);
        return;
      }
      forall k | 0 <= k < |changed| ensures Declarable(declared[k], typ) {
        MemberIsTyped(typ, now, declared[k]);
      }
      r := Redo(now, layout, resolved.value);
    }

    // Everything is to be redone: nothing is declared, nothing is built yet, or
    // the value itself is declared.
    ghost predicate Whole(layout: map<Addr, Path>, changed: seq<Addr>)
      reads this
    {
      changed == [] || root.None? || (AllThere(layout, changed) && [] in Named(layout, changed))
    }

    /** What a build can be asked before it starts. */
    ghost predicate CanBuild(now: Value, layout: map<Addr, Path>, changed: seq<Addr>)
      reads this
    {
      if Whole(layout, changed) then KeysValid(typ, false, now)
      else
        && AllThere(layout, changed)
        && CanRedoAll(Standing(root.value), codec, typ, now, Named(layout, changed))
    }

    method Redo(now: Value, layout: map<Addr, Path>, declared: seq<Path>) returns (r: Option<Hash>)
      requires Proper(typ) && HasType(typ, false, now) && Ready() && declared != [] && [] !in declared
      requires forall k :: 0 <= k < |declared| ==> Declarable(declared[k], typ)
      modifies this
      ensures Closed(held) && old(held) <= held
      ensures r.Some? <==> CanRedoAll(Standing(old(root).value), codec, typ, now, declared)
      ensures r.Some? ==> Ready() && r.value == root.value.tree
      ensures r.Some? ==> Spliced(root.value, old(root).value, codec, typ, now, declared)
      ensures r.Some? ==>
                Standing(root.value) == RedoneAll(Standing(old(root).value), codec, typ, now, declared, |declared|)
      ensures r.Some? ==> Indexed(index, old(index), layout, typ, now, declared)
    {
      var ok := RefreshAll(now, layout, declared);
      if !ok {
        return None;
      }
      assert declared[..|declared|] == declared;
      RehashAll(declared);
      return Some(root.value.tree);
    }

    method RefreshAll(now: Value, layout: map<Addr, Path>, declared: seq<Path>) returns (ok: bool)
      requires Proper(typ) && HasType(typ, false, now) && Ready() && [] !in declared
      requires forall k :: 0 <= k < |declared| ==> Declarable(declared[k], typ)
      modifies this
      ensures Closed(held) && old(held) <= held
      ensures ok <==> CanRedoAll(Standing(old(root).value), codec, typ, now, declared)
      ensures ok ==>
                && Underway(declared, 0, |declared|)
                && Reached(root.value, old(root).value, codec, typ, now, declared, |declared|)
                && Indexed(index, old(index), layout, typ, now, declared[..|declared|])
    {
      StandingBacked(root.value, held);
      ghost var n0 := root.value;
      var i := 0;
      assert Pending(declared, 0, 0) == {};
      while i < |declared|
        invariant 0 <= i <= |declared|
        invariant Closed(held) && old(held) <= held
        invariant Underway(declared, 0, i) && Reached(root.value, n0, codec, typ, now, declared, i)
        invariant Indexed(index, old(index), layout, typ, now, declared[..i])
      {
        ghost var mid := index;
        ok := RefreshNext(now, layout, declared, i, n0);
        if !ok {
          return false;
        }
        IndexedMore(index, mid, old(index), layout, typ, now, declared, i);
        i := i + 1;
      }
      return true;
    }

    method RefreshNext(now: Value, layout: map<Addr, Path>, declared: seq<Path>, i: nat,
          ghost n0: Node) returns (ok: bool)
      requires Proper(typ) && HasType(typ, false, now) && Closed(held)
      requires [] !in declared && i < |declared| && Declarable(declared[i], typ)
      requires Underway(declared, 0, i) && Reached(root.value, n0, codec, typ, now, declared, i)
      modifies this
      ensures Closed(held) && old(held) <= held
      ensures ok ==> Underway(declared, 0, i + 1) && Reached(root.value, n0, codec, typ, now, declared, i + 1)
      ensures ok ==> Indexed(index, old(index), layout, typ, now, [declared[i]])
      ensures !ok ==> !CanRedoAll(Standing(n0), codec, typ, now, declared)
    {
      ghost var n := root.value;
      ghost var e;
      PathsOpen(n, typ, declared[i]);
      ok, e := Refresh(declared[i], now, layout);
      if ok {
        RefreshedSettled(n, root.value, declared, i, e);
        RefreshedReaches(n, root.value, n0, codec, typ, now, declared, i, e);
      } else {
        ReachedStops(n, n0, codec, typ, now, declared, i);
      }
    }

    // Refreshed, with these paths still to be hashed up from.
    ghost predicate Underway(ds: seq<Path>, i: nat, j: nat)
      requires j <= |ds|
      reads this
    {
      match root
      case None => false
      case Some(n) =>
        n.blob == Zero && Shaped(n) && Typed(n, typ) && Backed(n, held) && Settled(n, Pending(ds, i, j))
    }

    method RehashAll(declared: seq<Path>)
      requires Underway(declared, 0, |declared|) && Closed(held) && declared != []
      requires forall k :: 0 <= k < |declared| ==> Declarable(declared[k], typ)
      modifies this`root, this`held
      ensures Ready() && old(held) <= held
      ensures SamePlaces(root.value, old(root).value)
    {
      var i := 0;
      while i < |declared|
        invariant 0 <= i <= |declared|
        invariant Closed(held) && old(held) <= held
        invariant Underway(declared, i, |declared|)
        invariant i > 0 ==> root.value.tree in held
        invariant SamePlaces(root.value, old(root).value)
      {
        PathsOpen(root.value, typ, declared[i]);
        RehashedNext(root.value, old(root).value, typ, declared, i);
        var n := Rehash(root.value, declared[i]);
        root := Some(n);
        i := i + 1;
      }
      assert Pending(declared, i, |declared|) == {};
    }

    /** Goes on in another store if the tree last built is there. */
    method Retarget(store: set<Hash>) returns (ok: bool)
      modifies this`held
      ensures ok <==> old(root).Some? ==> root.value.tree in store
      ensures held == if ok then store else old(held)
      ensures ok && old(Ready()) && Closed(store) ==> Ready()
    {
      if root.Some? && root.value.tree !in store {
        return false;
      }
      held := store;
      return true;
    }
  }

  lemma WholeCovers(ds: seq<Path>)
    requires [] in ds
    ensures forall q :: Covers(ds, q)
  {
    var k :| 0 <= k < |ds| && ds[k] == [];
    forall q: Path ensures Covers(ds, q) {
      assert ds[k] <= q;
    }
  }

  // A path a declaration can name: below the root, to something the type has.
  ghost predicate Declarable(p: Path, t: Type) {
    p != [] && TypeOn(t, p).Some? && forall i :: 0 <= i < |p| ==> ValidName(p[i])
  }

  lemma PendingStep(ds: seq<Path>, i: nat)
    requires i < |ds|
    ensures Pending(ds, i, |ds|) == Pending(ds, i + 1, |ds|) + {ds[i]}
    ensures Pending(ds, 0, i + 1) == Pending(ds, 0, i) + {ds[i]}
  {
  }

  lemma EditedKeeps(n: Node, p: Path, e: Edit, d: set<Path>)
    requires Shaped(n) && Settled(n, d) && FineEdit(e) && p != [] && Edited(n, p, e).Some?
    requires forall i :: 0 <= i < |p| ==> ValidName(p[i])
    ensures var m := Edited(n, p, e).value; Shaped(m) && Settled(m, d + {p}) && m.blob == n.blob
  {
    EditedShaped(n, p, e);
    EditedSettled(n, p, e, d);
    EditedBlob(n, p, e);
  }

  lemma RefreshedSpliced(n: Node, m: Node, n0: Node, c: Codec, t: Type, v: Value, ds: seq<Path>, i: nat, e: Edit)
    requires i < |ds| && ds[i] != [] && TypeOn(t, ds[i]).Some? && Spliced(n, n0, c, t, v, ds[..i])
    requires Shaped(n) && Typed(n, t) && Redoes(e, c, t, v, ds[i]) && Edited(n, ds[i], e) == Some(m)
    ensures Typed(m, t) && Spliced(m, n0, c, t, v, ds[..i + 1])
  {
    SpliceOne(n, m, n0, c, t, v, ds[..i], ds[i], e);
    assert ds[..i] + [ds[i]] == ds[..i + 1];
  }

  lemma RefreshedStanding(n: Node, m: Node, c: Codec, t: Type, v: Value, p: Path, e: Edit)
    requires Shaped(n) && Typed(n, t) && p != [] && TypeOn(t, p).Some?
    requires Redoes(e, c, t, v, p) && Edited(n, p, e) == Some(m)
    ensures Standing(m) == Redone(Standing(n), c, t, v, p)
  {
    PathsOpen(n, t, p);
    RedoneStanding(n, p, e, c, t, v);
  }

  // One more path redone: how far that is, and what still holds.
  lemma RefreshedReaches(n: Node, m: Node, n0: Node, c: Codec, t: Type, v: Value, ds: seq<Path>, i: nat, e: Edit)
    requires [] !in ds && i < |ds| && TypeOn(t, ds[i]).Some? && Reached(n, n0, c, t, v, ds, i)
    requires Shaped(n) && Typed(n, t) && CanRedo(Standing(n), t, v, ds[i])
    requires Redoes(e, c, t, v, ds[i]) && Edited(n, ds[i], e) == Some(m)
    ensures Typed(m, t) && Reached(m, n0, c, t, v, ds, i + 1)
  {
    RefreshedSpliced(n, m, n0, c, t, v, ds, i, e);
    RefreshedStanding(n, m, c, t, v, ds[i], e);
    ReachedNext(n, m, n0, c, t, v, ds, i);
  }

  lemma RefreshedSettled(n: Node, m: Node, ds: seq<Path>, i: nat, e: Edit)
    requires i < |ds| && Shaped(n) && Settled(n, Pending(ds, 0, i)) && FineEdit(e)
    requires ds[i] != [] && (forall k :: 0 <= k < |ds[i]| ==> ValidName(ds[i][k])) && Edited(n, ds[i], e) == Some(m)
    ensures Shaped(m) && m.blob == n.blob && Settled(m, Pending(ds, 0, i + 1))
  {
    PendingStep(ds, i);
    EditedKeeps(n, ds[i], e, Pending(ds, 0, i));
  }

  lemma RehashedNext(n: Node, n0: Node, t: Type, ds: seq<Path>, i: nat)
    requires i < |ds| && ds[i] != [] && Shaped(n) && Typed(n, t) && Settled(n, Pending(ds, i, |ds|)) && SamePlaces(n, n0)
    ensures var m := Rehashed(n, ds[i]);
            && Shaped(m) && Typed(m, t) && m.blob == n.blob && Settled(m, Pending(ds, i + 1, |ds|))
            && SamePlaces(m, n0)
  {
    PendingStep(ds, i);
    RehashedSettled(n, ds[i], Pending(ds, i + 1, |ds|));
    RehashedShape(n, ds[i]);
    RehashedSame(n, ds[i]);
  }

  lemma EditedRemoves(n: Node, p: Path)
    requires p != []
    ensures Edited(n, p, Remove).Some?
    decreases |p|
  {
    if |p| > 1 && Has(n, p[0]) { EditedRemoves(KidAt(n, p[0]), p[1..]); }
  }

  ghost predicate EditBacked(e: Edit, held: set<Hash>) {
    match e
    case Graft(kid) => KidBacked(kid, held)
    case Reblob(blob) => IsBlob(blob) && blob in held
    case Remove => true
  }

  lemma {:induction false} EditedBacked(n: Node, p: Path, e: Edit, held: set<Hash>)
    requires Backed(n, held) && EditBacked(e, held) && p != [] && Edited(n, p, e).Some?
    ensures Backed(Edited(n, p, e).value, held)
    ensures Edited(n, p, e).value.tree == n.tree && Edited(n, p, e).value.blob == n.blob
    decreases |p|
  {
    if |p| > 1 && Has(n, p[0]) && KidAt(n, p[0]).blob == Zero {
      EditedBacked(KidAt(n, p[0]), p[1..], e, held);
    } else if |p| > 1 && Has(n, p[0]) {
      EditedBlob(KidAt(n, p[0]), p[1..], e);
    }
  }

  lemma MemberTyped(t: Type, v: Value, p: Path)
    requires Proper(t) && HasType(t, false, v) && MemberOn(t, v, p).Some?
    ensures var m := MemberOn(t, v, p).value; Proper(m.typ) && HasType(m.typ, m.leaf, m.value)
    decreases t
  {
    if t.Pointer? {
      MemberTyped(t.elem, v.target, p);
    } else {
      var m := MemberAt(t, v, p[0]).value;
      assert Proper(m.typ) && HasType(m.typ, m.leaf, m.value);
      if |p| > 1 { MemberTyped(m.typ, m.value, p[1..]); }
    }
  }

  lemma GrownIsBuild(n: Node, ls: seq<Leaf>, c: Codec, t: Type, v: Value)
    requires Shaped(n) && Bushy(n) && Holds(n, ls, |ls|) && Lists(ls, [], c, t, false, v)
    ensures Shaped(Persisted(n)) && Settled(Persisted(n), {}) && Typed(Persisted(n), t)
    ensures Mirrors(Persisted(n), c, t, v) && IsBuild(Persisted(n).tree, c, t, v)
  {
    var m := Persisted(n);
    PersistedShaped(n);
    PersistedSettled(n);
    PersistedBushy(n);
    ListedMirrors(n, ls, c, t, v);
    forall p ensures At(m, p) == BlobAt(c, t, false, v, p) && (At(m, p).Some? ==> IsLeafPath(t, p)) {
      PersistedAt(n, p);
      if Stored(c, t, false, v, p).Some? { StoredIsTyped(c, t, v, p); }
    }
    SettledStands(m);
    StandsWellFormed(m);
    StandsNoEmptyDirs(m);
    forall p { StandsLeaf(m, p); }
  }

  lemma PlantStep(n: Node, ls: seq<Leaf>, i: nat, held: set<Hash>)
    requires Plantable(ls) && i < |ls| && ls[i].path != [] && Planted(n, ls, i, held)
    ensures var blob := Digest(Blob(ls[i].content));
            Planted(Inserted(n, ls[i].path, blob), ls, i + 1, held + {blob})
  {
    var blob := Digest(Blob(ls[i].content));
    PlantOne(n, ls, i);
    PlantFits(n, ls, i);
    BlobsHeldMore(n, held, held + {blob});
    InsertedBlobsHeld(n, ls[i].path, blob, held + {blob});
  }

  // ----- What a builder's tree is worth -----

  // However it came about, a tree that stands and mirrors a value has the leaf
  // map of a full build; and it is the full build's tree exactly when no
  // directory in it was left without files, which is when the value stores
  // something beneath every node.
  lemma StandingIsBuild(n: Node, c: Codec, t: Type, v: Value, full: Hash)
    requires Shaped(n) && Settled(n, {}) && Mirrors(n, c, t, v) && IsBuild(full, c, t, v)
    ensures SameLeaves(n.tree, full)
    ensures n.tree == full <==> NoEmptyDirs(n.tree)
    ensures n.tree == full <==> forall q :: q != [] && q in Standing(n) ==> StoresUnder(c, t, v, q)
  {
    SettledStands(n);
    StandsWellFormed(n);
    FilledIffLeads(n);
    MirrorLeads(n, c, t, v);
    forall p ensures LeafAt(n.tree, p) == LeafAt(full, p) { StandsLeaf(n, p); }
    if NoEmptyDirs(n.tree) { LeavesDecideTree(n.tree, full); }
  }

  // Over any history of targeted builds, each told of every place the value
  // differs from the one before, the builder mirrors the value it is at.
  lemma {:induction false} HistoryMirrors(ns: seq<Node>, vs: seq<Value>, ds: seq<seq<Path>>, c: Codec, t: Type)
    requires |ns| == |vs| == |ds| + 1 && Mirrors(ns[0], c, t, vs[0])
    requires forall i :: 0 <= i < |ds| ==>
               Spliced(ns[i + 1], ns[i], c, t, vs[i + 1], ds[i]) && AgreeElsewhere(c, t, vs[i], vs[i + 1], ds[i])
    ensures Mirrors(ns[|ds|], c, t, vs[|ds|])
    decreases |ds|
  {
    if |ds| > 0 {
      var k := |ds| - 1;
      HistoryMirrors(ns[..k + 1], vs[..k + 1], ds[..k], c, t);
      SplicedMirrors(ns[k + 1], ns[k], c, t, vs[k], vs[k + 1], ds[k]);
    }
  }
}
