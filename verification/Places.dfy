// Where nodes stand, leaves or not: what an edit needs to find in the tree, and
// what it leaves there.

module Places {
  import opened Basics
  import opened Git
  import opened Nodes

  /** A node stands at p: the top itself, or a child reached through nodes that
      are no leaves. */
  ghost predicate Present(n: Node, p: Path)
    decreases |p|
  {
    p == [] || (Has(n, p[0]) && (|p| == 1 || (KidAt(n, p[0]).blob == Zero && Present(KidAt(n, p[0]), p[1..]))))
  }

  ghost function Standing(n: Node): iset<Path> {
    iset p | Present(n, p)
  }

  // What an edit leaves standing, the place itself included.
  ghost predicate Grows(e: Edit, q: Path) {
    match e
    case Graft(kid) => Present(kid, q)
    case Reblob(_) => q == []
    case Remove => false
  }

  // What an edit has to find.
  ghost predicate Meets(n: Node, p: Path, e: Edit)
    requires p != []
  {
    match e
    case Graft(_) => Present(n, p[..|p| - 1])
    case Reblob(_) => Present(n, p)
    case Remove => true
  }

  // A subtree needs the node above it, a leaf's blob the leaf's node itself.
  lemma {:induction false} EditedMeets(n: Node, p: Path, e: Edit)
    requires p != [] && Open(n, p)
    ensures Edited(n, p, e).Some? <==> Meets(n, p, e)
    decreases |p|
  {
    if |p| > 1 && Has(n, p[0]) {
      EditedMeets(KidAt(n, p[0]), p[1..], e);
      assert p[..|p| - 1][1..] == p[1..][..|p[1..]| - 1];
    }
  }

  lemma PresentSwap(n: Node, name: string, kid: Node, q: Path)
    requires Has(n, name) && kid.blob == KidAt(n, name).blob
    ensures Present(Swap(n, name, kid), q) <==>
            if |q| > 1 && q[0] == name && kid.blob == Zero then Present(kid, q[1..]) else Present(n, q)
  {
    SetKids(n, name, kid);
  }

  lemma PresentHere(n: Node, name: string, e: Edit, q: Path)
    requires Shaped(n) && FineEdit(e) && q != [] && Edited(n, [name], e).Some?
    ensures Present(Edited(n, [name], e).value, q) <==> if q[0] == name then Grows(e, q[1..]) else Present(n, q)
  {
    match e
    case Graft(kid) => SetKids(n, name, kid);
    case Reblob(blob) => SetKids(n, name, KidAt(n, name).(blob := blob, kids := []));
    case Remove => if Has(n, name) { DropKids(n, name); }
  }

  lemma PresentDeeper(n: Node, p: Path, e: Edit, q: Path)
    requires |p| > 1 && q != [] && Has(n, p[0]) && KidAt(n, p[0]).blob == Zero && Edited(n, p, e).Some?
    requires q[0] == p[0] ==>
               (Present(Edited(KidAt(n, p[0]), p[1..], e).value, q[1..]) <==>
                if p[1..] <= q[1..] then Grows(e, q[1..][|p| - 1..]) else Present(KidAt(n, p[0]), q[1..]))
    ensures Present(Edited(n, p, e).value, q) <==> if p <= q then Grows(e, q[|p|..]) else Present(n, q)
  {
    PrefixSteps(p, q);
    EditedBlob(KidAt(n, p[0]), p[1..], e);
    PresentSwap(n, p[0], Edited(KidAt(n, p[0]), p[1..], e).value, q);
  }

  lemma PresentLast(n: Node, p: Path, e: Edit, q: Path)
    requires Shaped(n) && FineEdit(e) && |p| == 1 && q != [] && Edited(n, p, e).Some?
    ensures Present(Edited(n, p, e).value, q) <==> if p <= q then Grows(e, q[|p|..]) else Present(n, q)
  {
    assert p == [p[0]];
    PresentHere(n, p[0], e, q);
    PrefixSteps(p, q);
  }

  lemma PresentMissing(n: Node, p: Path, e: Edit, q: Path)
    requires |p| > 1 && q != [] && !Has(n, p[0]) && Edited(n, p, e).Some?
    ensures Present(Edited(n, p, e).value, q) <==> if p <= q then Grows(e, q[|p|..]) else Present(n, q)
  {
    PrefixSteps(p, q);
  }

  // Nodes come and go at the place and beneath it only.
  lemma {:induction false} EditedPresent(n: Node, p: Path, e: Edit, q: Path)
    requires Shaped(n) && Open(n, p) && FineEdit(e) && p != [] && Edited(n, p, e).Some?
    ensures Present(Edited(n, p, e).value, q) <==> if p <= q then Grows(e, q[|p|..]) else Present(n, q)
    decreases |p|
  {
    if q == [] {
    } else if |p| == 1 {
      PresentLast(n, p, e, q);
    } else if Has(n, p[0]) {
      ShapedBelow(n, p[0]);
      if q[0] == p[0] {
        EditedPresent(KidAt(n, p[0]), p[1..], e, q[1..]);
      }
      PresentDeeper(n, p, e, q);
    } else {
      PresentMissing(n, p, e, q);
    }
  }

  // Hashing moves no node.
  lemma {:induction false} RehashedPresent(n: Node, p: Path, q: Path)
    requires p != []
    ensures Present(Rehashed(n, p), q) <==> Present(n, q)
    decreases |p|
  {
    if |p| > 1 && Has(n, p[0]) {
      var kid := KidAt(n, p[0]);
      var below := Rehashed(kid, p[1..]);
      RehashedBlob(kid, p[1..]);
      if |q| > 1 && q[0] == p[0] {
        RehashedPresent(kid, p[1..], q[1..]);
      }
      PresentSwap(n, p[0], below, q);
      RestoredPresent(Swap(n, p[0], below), p[0], q);
    } else {
      RestoredPresent(n, p[0], q);
    }
  }

  lemma RestoredPresent(n: Node, name: string, q: Path)
    ensures Present(Restored(n, name), q) <==> Present(n, q)
  {
  }

  /** The same leaves, and nodes at the same places. */
  ghost predicate SamePlaces(n: Node, m: Node) {
    (forall q :: At(n, q) == At(m, q)) && forall q :: Present(n, q) <==> Present(m, q)
  }

  lemma RehashedSame(n: Node, p: Path)
    requires p != []
    ensures SamePlaces(Rehashed(n, p), n)
  {
    forall q { RehashedAt(n, p, q); }
    forall q { RehashedPresent(n, p, q); }
  }

  // ----- Nodes and the leaves beneath them -----

  /** A leaf lies at p or beneath it. */
  ghost predicate Leads(n: Node, p: Path) {
    exists r :: p <= r && At(n, r).Some?
  }

  lemma {:induction false} AtPresent(n: Node, q: Path, r: Path)
    requires At(n, r).Some? && q <= r
    ensures Present(n, q)
    decreases |q|
  {
    if |q| > 1 {
      PrefixSteps(q, r);
      AtPresent(KidAt(n, q[0]), q[1..], r[1..]);
    }
  }

  lemma LeadsDown(n: Node, q: Path, r: Path)
    requires q != [] && Has(n, q[0]) && KidAt(n, q[0]).blob == Zero && q[1..] <= r && At(KidAt(n, q[0]), r).Some?
    ensures Leads(n, q)
  {
    AtUnder(n, q[0], r);
    PrefixSteps(q, [q[0]] + r);
    assert ([q[0]] + r)[1..] == r;
  }

  lemma {:induction false} BushyLeads(n: Node, q: Path)
    requires Bushy(n) && Present(n, q) && q != []
    ensures Leads(n, q)
    decreases |q|
  {
    var kid := KidAt(n, q[0]);
    if kid.blob != Zero {
      assert At(n, q).Some?;
    } else if |q| == 1 {
      var r :| At(kid, r).Some?;
      LeadsDown(n, q, r);
    } else {
      BushyLeads(kid, q[1..]);
      var r :| q[1..] <= r && At(kid, r).Some?;
      LeadsDown(n, q, r);
    }
  }

  // Where every node but the top has a leaf beneath it, the leaves say where
  // the nodes are.
  lemma BushyPresent(n: Node, q: Path)
    requires Bushy(n)
    ensures Present(n, q) <==> q == [] || Leads(n, q)
  {
    if q != [] && Present(n, q) { BushyLeads(n, q); }
    if Leads(n, q) {
      var r :| q <= r && At(n, r).Some?;
      AtPresent(n, q, r);
    }
  }

  lemma {:induction false} SlotOf(kids: seq<Kid>, i: nat)
    requires i < |kids| && Distinct(kids)
    ensures Slot(kids, kids[i].name) == i
  {
    if i > 0 { SlotOf(kids[1..], i - 1); }
  }

  lemma LeadsUp(n: Node, name: string, q: Path)
    requires Has(n, name) && KidAt(n, name).blob == Zero && Leads(n, [name] + q)
    ensures Leads(KidAt(n, name), q)
  {
    var r :| [name] + q <= r && At(n, r).Some?;
    PrefixSteps([name] + q, r);
    assert ([name] + q)[1..] == q;
    assert q <= r[1..] && At(n, r) == At(KidAt(n, name), r[1..]);
  }

  lemma {:induction false} AllLeadBushy(n: Node)
    requires Shaped(n) && forall q :: q != [] && Present(n, q) ==> Leads(n, q)
    ensures Bushy(n)
  {
    forall i | 0 <= i < |n.kids| && n.kids[i].node.blob == Zero ensures Bears(n.kids[i].node) && Bushy(n.kids[i].node) {
      var name, kid := n.kids[i].name, n.kids[i].node;
      SlotOf(n.kids, i);
      assert KidAt(n, name) == kid;
      assert Present(n, [name] + []);
      LeadsUp(n, name, []);
      forall q | q != [] && Present(kid, q) ensures Leads(kid, q) {
        assert ([name] + q)[1..] == q;
        assert Present(n, [name] + q);
        LeadsUp(n, name, q);
      }
      AllLeadBushy(kid);
    }
  }

  lemma {:induction false} FilledBushy(n: Node)
    requires Shaped(n) && Stands(n) && NoEmptyDirs(n.tree)
    ensures Bushy(n)
  {
    var es := Current(n.kids);
    forall i | 0 <= i < |n.kids| && n.kids[i].node.blob == Zero ensures Bears(n.kids[i].node) && Bushy(n.kids[i].node) {
      var kid := n.kids[i].node;
      assert es[i] in Sorted(es);
      var k :| 0 <= k < |Sorted(es)| && Sorted(es)[k] == es[i];
      assert n.tree.obj.entries[k] == es[i];
      var p :| LeafAt(kid.tree, p).Some?;
      StandsLeaf(kid, p);
      FilledBushy(kid);
    }
  }

  // A tree has no empty directory just when a leaf lies beneath every node.
  lemma FilledIffLeads(n: Node)
    requires Shaped(n) && Stands(n)
    ensures NoEmptyDirs(n.tree) <==> forall q :: q != [] && Present(n, q) ==> Leads(n, q)
  {
    if NoEmptyDirs(n.tree) {
      FilledBushy(n);
      forall q | q != [] && Present(n, q) ensures Leads(n, q) { BushyLeads(n, q); }
    }
    if forall q :: q != [] && Present(n, q) ==> Leads(n, q) {
      AllLeadBushy(n);
      StandsNoEmptyDirs(n);
    }
  }
}
