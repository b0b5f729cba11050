// Marking what a set of roots reaches, over objects that may have gaps: the
// half that a store's compaction and a graph's sweep have in common. What may
// be named as a file and what as a directory is told apart, since the two hold
// their objects differently and neither checks that modes say the right kind.

module Mark {
  import opened Basics
  import opened Git

  /** The marks once everything at h has been visited, pruning at what is
      marked already, whatever it was marked as. None is an object that is not
      held as what it is named. */
  ghost function Marked(files: set<Hash>, trees: set<Hash>, h: Hash, dir: bool, live: set<Hash>): Option<set<Hash>>
    decreases h
  {
    if h in live then Some(live)
    else if !dir then if h in files then Some(live + {h}) else None
    else if h in trees && IsTree(h) then MarkedAll(files, trees, h.obj.entries, live + {h})
    else None
  }

  ghost function MarkedAll(files: set<Hash>, trees: set<Hash>, es: seq<Entry>, live: set<Hash>): Option<set<Hash>>
    decreases es
  {
    if es == [] then Some(live)
    else
      match Marked(files, trees, es[0].hash, es[0].mode.Dir?, live)
      case None => None
      case Some(more) => MarkedAll(files, trees, es[1..], more)
  }

  // ----- What a walk without marks would meet -----

  /** Every object met from h, directories entered and files not. */
  ghost function Walked(h: Hash, dir: bool): set<Hash>
    decreases h
  {
    {h} + if dir && IsTree(h) then WalkedAll(h.obj.entries) else {}
  }

  ghost function WalkedAll(es: seq<Entry>): set<Hash>
    decreases es
  {
    set i, x | 0 <= i < |es| && x in Walked(es[i].hash, es[i].mode.Dir?) :: x
  }

  /** And all of it is held as what it is named. */
  ghost predicate Walkable(files: set<Hash>, trees: set<Hash>, h: Hash, dir: bool)
    decreases h
  {
    if dir then h in trees && IsTree(h) && AllWalkable(files, trees, h.obj.entries) else h in files
  }

  ghost predicate AllWalkable(files: set<Hash>, trees: set<Hash>, es: seq<Entry>)
    decreases es
  {
    forall i :: 0 <= i < |es| ==> Walkable(files, trees, es[i].hash, es[i].mode.Dir?)
  }

  /** What is named a directory anywhere on the walk, and nothing else on it, is
      in dirs: no object goes by both kinds. */
  ghost predicate Agrees(dirs: iset<Hash>, h: Hash, dir: bool)
    decreases h
  {
    (dir <==> h in dirs) && (dir && IsTree(h) ==> AllAgree(dirs, h.obj.entries))
  }

  ghost predicate AllAgree(dirs: iset<Hash>, es: seq<Entry>)
    decreases es
  {
    forall i :: 0 <= i < |es| ==> Agrees(dirs, es[i].hash, es[i].mode.Dir?)
  }

  lemma {:induction false} WalkedInner(dirs: iset<Hash>, h: Hash, dir: bool, x: Hash)
    requires Agrees(dirs, h, dir) && x in Walked(h, dir)
    ensures Walked(x, x in dirs) <= Walked(h, dir)
    decreases h
  {
    if x != h {
      var es := h.obj.entries;
      var i :| 0 <= i < |es| && x in Walked(es[i].hash, es[i].mode.Dir?);
      WalkedInner(dirs, es[i].hash, es[i].mode.Dir?, x);
    }
  }

  lemma {:induction false} WalkableInner(files: set<Hash>, trees: set<Hash>, dirs: iset<Hash>, h: Hash, dir: bool, x: Hash)
    requires Agrees(dirs, h, dir) && Walkable(files, trees, h, dir) && x in Walked(h, dir)
    ensures Walkable(files, trees, x, x in dirs)
    decreases h
  {
    if x != h {
      var es := h.obj.entries;
      var i :| 0 <= i < |es| && x in Walked(es[i].hash, es[i].mode.Dir?);
      WalkableInner(files, trees, dirs, es[i].hash, es[i].mode.Dir?, x);
    }
  }

  lemma WalkedAllSplit(es: seq<Entry>)
    requires es != []
    ensures WalkedAll(es) == Walked(es[0].hash, es[0].mode.Dir?) + WalkedAll(es[1..])
  {
    forall x ensures x in WalkedAll(es) <==> x in Walked(es[0].hash, es[0].mode.Dir?) || x in WalkedAll(es[1..]) {
      if x in WalkedAll(es) {
        var i :| 0 <= i < |es| && x in Walked(es[i].hash, es[i].mode.Dir?);
        assert i > 0 ==> es[i] == es[1..][i - 1];
      }
      if x in WalkedAll(es[1..]) {
        var i :| 0 <= i < |es[1..]| && x in Walked(es[1..][i].hash, es[1..][i].mode.Dir?);
        assert es[i + 1] == es[1..][i];
      }
    }
  }

  lemma AllWalkableSplit(files: set<Hash>, trees: set<Hash>, es: seq<Entry>)
    requires es != []
    ensures AllWalkable(files, trees, es) <==>
            Walkable(files, trees, es[0].hash, es[0].mode.Dir?) && AllWalkable(files, trees, es[1..])
  {
    assert forall i :: 0 < i < |es| ==> es[i] == es[1..][i - 1];
    if AllWalkable(files, trees, es[1..]) {
      forall i | 0 < i < |es| ensures Walkable(files, trees, es[i].hash, es[i].mode.Dir?) {
        assert es[i] == es[1..][i - 1];
      }
    }
  }

  // ----- Marking is walking -----

  // A mark is good for everything beneath it.
  ghost predicate Good(files: set<Hash>, trees: set<Hash>, dirs: iset<Hash>, live: set<Hash>, x: Hash) {
    Walkable(files, trees, x, x in dirs) && Walked(x, x in dirs) <= live
  }

  // Or it is still being walked, and then it lies above anything of rank below
  // bound.
  ghost predicate Settled(files: set<Hash>, trees: set<Hash>, dirs: iset<Hash>, live: set<Hash>, bound: nat) {
    forall x :: x in live ==> Good(files, trees, dirs, live, x) || Rank(x) >= bound
  }

  // Where no object goes by both kinds, marking from h adds exactly what a walk
  // meets, and fails exactly when some of that is not held.
  lemma {:induction false} MarkedExact(files: set<Hash>, trees: set<Hash>, dirs: iset<Hash>, h: Hash, dir: bool,
        live: set<Hash>)
    requires Agrees(dirs, h, dir) && Settled(files, trees, dirs, live, Rank(h) + 1)
    ensures Marked(files, trees, h, dir, live) ==
            if Walkable(files, trees, h, dir) then Some(live + Walked(h, dir)) else None
    decreases h
  {
    if h in live {
      assert Good(files, trees, dirs, live, h);
      assert live + Walked(h, dir) == live;
    } else if !dir {
      assert Walked(h, dir) == {h};
    } else if h in trees && IsTree(h) {
      var es := h.obj.entries;
      MarkedAllExact(files, trees, dirs, es, live + {h}, Rank(h));
      assert live + {h} + WalkedAll(es) == live + Walked(h, dir);
    }
  }

  lemma {:induction false} MarkedAllExact(files: set<Hash>, trees: set<Hash>, dirs: iset<Hash>, es: seq<Entry>,
        live: set<Hash>, bound: nat)
    requires AllAgree(dirs, es) && forall k :: 0 <= k < |es| ==> Rank(es[k].hash) < bound
    requires Settled(files, trees, dirs, live, bound)
    ensures MarkedAll(files, trees, es, live) ==
            if AllWalkable(files, trees, es) then Some(live + WalkedAll(es)) else None
    decreases es
  {
    if es == [] {
      assert live + WalkedAll(es) == live;
    } else {
      var h, dir := es[0].hash, es[0].mode.Dir?;
      WalkedAllSplit(es);
      AllWalkableSplit(files, trees, es);
      MarkedExact(files, trees, dirs, h, dir, live);
      if Walkable(files, trees, h, dir) {
        var more := live + Walked(h, dir);
        SettledMore(files, trees, dirs, live, bound, h, dir);
        MarkedAllExact(files, trees, dirs, es[1..], more, bound);
        assert more + WalkedAll(es[1..]) == live + WalkedAll(es);
      }
    }
  }

  lemma SettledMore(files: set<Hash>, trees: set<Hash>, dirs: iset<Hash>, live: set<Hash>, bound: nat, h: Hash, dir: bool)
    requires Agrees(dirs, h, dir) && Settled(files, trees, dirs, live, bound) && Walkable(files, trees, h, dir)
    ensures Settled(files, trees, dirs, live + Walked(h, dir), bound)
  {
    var more := live + Walked(h, dir);
    forall x | x in more ensures Good(files, trees, dirs, more, x) || Rank(x) >= bound {
      if x in Walked(h, dir) {
        WalkedInner(dirs, h, dir, x);
        WalkableInner(files, trees, dirs, h, dir, x);
      }
    }
  }

  // Whatever the modes say, a walk that meets nothing missing is marked in full.
  lemma {:induction false} WalkableMarked(files: set<Hash>, trees: set<Hash>, h: Hash, dir: bool, live: set<Hash>)
    requires Walkable(files, trees, h, dir)
    ensures Marked(files, trees, h, dir, live).Some?
    decreases h
  {
    if h !in live && dir { AllWalkableMarked(files, trees, h.obj.entries, live + {h}); }
  }

  lemma {:induction false} AllWalkableMarked(files: set<Hash>, trees: set<Hash>, es: seq<Entry>, live: set<Hash>)
    requires AllWalkable(files, trees, es)
    ensures MarkedAll(files, trees, es, live).Some?
    decreases es
  {
    if es != [] {
      AllWalkableSplit(files, trees, es);
      WalkableMarked(files, trees, es[0].hash, es[0].mode.Dir?, live);
      AllWalkableMarked(files, trees, es[1..], Marked(files, trees, es[0].hash, es[0].mode.Dir?, live).value);
    }
  }

  // But not the other way round where kinds are mixed: a directory entry that
  // names a blob goes unnoticed once the blob is marked as a file.
  // So it is over one set of objects, as a store has them, and over two apart, as
  // a graph has them.
  lemma MixedKinds(content: Bytes) returns (t: Hash, b: Hash)
    ensures IsTree(t) && IsBlob(b)
    ensures !Walkable({t, b}, {t, b}, t, true) && Marked({t, b}, {t, b}, t, true, {}) == Some({t, b})
    ensures !Walkable({b}, {t}, t, true) && Marked({b}, {t}, t, true, {}) == Some({t, b})
  {
    b := Digest(Blob(content));
    t := Digest(Tree([Entry("a", Regular, b), Entry("b", Dir, b)]));
    MixedMarked({t, b}, {t, b}, t, b);
    MixedMarked({b}, {t}, t, b);
  }

  lemma MixedMarked(files: set<Hash>, trees: set<Hash>, t: Hash, b: Hash)
    requires IsBlob(b) && t == Digest(Tree([Entry("a", Regular, b), Entry("b", Dir, b)]))
    requires b in files && t in trees
    ensures !Walkable(files, trees, t, true) && Marked(files, trees, t, true, {}) == Some({t, b})
  {
    var es := t.obj.entries;
    assert !Walkable(files, trees, es[1].hash, es[1].mode.Dir?);
    assert {t} + {b} == {t, b} && {} + {t} == {t};
    assert es[1..] == [es[1]] && es[1..][1..] == [];
    assert MarkedAll(files, trees, [], {t, b}) == Some({t, b});
    assert MarkedAll(files, trees, es[1..], {t, b}) == Some({t, b});
    assert Marked(files, trees, b, false, {t}) == Some({t, b});
  }

  // ----- Several roots -----

  ghost predicate RootsAgree(dirs: iset<Hash>, roots: seq<Hash>) {
    forall i :: 0 <= i < |roots| && roots[i] != Zero ==> Agrees(dirs, roots[i], true)
  }

  /** No object is a directory, or a root, in one place and a file in another. */
  ghost predicate Unmixed(roots: seq<Hash>) {
    exists dirs :: RootsAgree(dirs, roots)
  }

  ghost predicate RootsWalkable(files: set<Hash>, trees: set<Hash>, roots: seq<Hash>, n: nat)
    requires n <= |roots|
  {
    forall i :: 0 <= i < n && roots[i] != Zero ==> Walkable(files, trees, roots[i], true)
  }

  ghost function RootsWalked(roots: seq<Hash>, n: nat): set<Hash>
    requires n <= |roots|
  {
    set i, x | 0 <= i < n && roots[i] != Zero && x in Walked(roots[i], true) :: x
  }

  lemma RootsWalkedGrows(roots: seq<Hash>, i: nat)
    requires i < |roots|
    ensures RootsWalked(roots, i + 1) == RootsWalked(roots, i) + if roots[i] == Zero then {} else Walked(roots[i], true)
  {
  }

  ghost function Among(trees: set<Hash>): iset<Hash> {
    iset x | x in trees
  }

  // Where nothing is held both as a file and as a directory, roots that can be
  // walked mix no kinds.
  lemma {:induction false} WalkableAgrees(files: set<Hash>, trees: set<Hash>, h: Hash, dir: bool)
    requires files !! trees && Walkable(files, trees, h, dir)
    ensures Agrees(Among(trees), h, dir)
    decreases h
  {
    if dir {
      forall i | 0 <= i < |h.obj.entries|
        ensures Agrees(Among(trees), h.obj.entries[i].hash, h.obj.entries[i].mode.Dir?)
      {
        WalkableAgrees(files, trees, h.obj.entries[i].hash, h.obj.entries[i].mode.Dir?);
      }
    }
  }

  lemma WalkableUnmixed(files: set<Hash>, trees: set<Hash>, roots: seq<Hash>)
    requires files !! trees && RootsWalkable(files, trees, roots, |roots|)
    ensures Unmixed(roots)
  {
    forall i | 0 <= i < |roots| && roots[i] != Zero ensures Agrees(Among(trees), roots[i], true) {
      WalkableAgrees(files, trees, roots[i], true);
    }
    assert RootsAgree(Among(trees), roots);
  }

  // What a walk meets is held.
  lemma {:induction false} WalkedHeld(files: set<Hash>, trees: set<Hash>, h: Hash, dir: bool)
    requires Walkable(files, trees, h, dir)
    ensures Walked(h, dir) <= files + trees
    decreases h
  {
    if dir {
      forall i | 0 <= i < |h.obj.entries|
        ensures Walked(h.obj.entries[i].hash, h.obj.entries[i].mode.Dir?) <= files + trees
      {
        WalkedHeld(files, trees, h.obj.entries[i].hash, h.obj.entries[i].mode.Dir?);
      }
    }
  }

  lemma RootsWalkedHeld(files: set<Hash>, trees: set<Hash>, roots: seq<Hash>)
    requires RootsWalkable(files, trees, roots, |roots|)
    ensures RootsWalked(roots, |roots|) <= files + trees
  {
    forall i | 0 <= i < |roots| && roots[i] != Zero ensures Walked(roots[i], true) <= files + trees {
      WalkedHeld(files, trees, roots[i], true);
    }
  }

  ghost predicate AllGood(files: set<Hash>, trees: set<Hash>, dirs: iset<Hash>, live: set<Hash>) {
    forall x :: x in live ==> Good(files, trees, dirs, live, x)
  }

  lemma RootsGood(files: set<Hash>, trees: set<Hash>, dirs: iset<Hash>, roots: seq<Hash>, n: nat)
    requires n <= |roots| && RootsAgree(dirs, roots) && RootsWalkable(files, trees, roots, n)
    ensures AllGood(files, trees, dirs, RootsWalked(roots, n))
  {
    forall x | x in RootsWalked(roots, n) ensures Good(files, trees, dirs, RootsWalked(roots, n), x) {
      var i :| 0 <= i < n && roots[i] != Zero && x in Walked(roots[i], true);
      WalkedInner(dirs, roots[i], true, x);
      WalkableInner(files, trees, dirs, roots[i], true, x);
    }
  }

  // One more root, marked on top of the roots before it.
  lemma MarkRoot(files: set<Hash>, trees: set<Hash>, roots: seq<Hash>, i: nat)
    requires i < |roots| && roots[i] != Zero && Unmixed(roots) && RootsWalkable(files, trees, roots, i)
    ensures Marked(files, trees, roots[i], true, RootsWalked(roots, i)) ==
            if Walkable(files, trees, roots[i], true) then Some(RootsWalked(roots, i + 1)) else None
  {
    var dirs :| RootsAgree(dirs, roots);
    RootsWalkedGrows(roots, i);
    RootsGood(files, trees, dirs, roots, i);
    MarkedExact(files, trees, dirs, roots[i], true, RootsWalked(roots, i));
  }

  // ----- Roots that are sound trees -----

  ghost function Union(roots: seq<Hash>): set<Hash> {
    set i, x | 0 <= i < |roots| && roots[i] != Zero && x in Reach(roots[i]) :: x
  }

  // Roots naming trees whose modes say the right kinds all the way down.
  ghost predicate Sane(roots: seq<Hash>) {
    forall i :: 0 <= i < |roots| && roots[i] != Zero ==> IsTree(roots[i]) && Sound(roots[i])
  }

  ghost predicate HeldByKind(files: set<Hash>, trees: set<Hash>, objects: set<Hash>) {
    forall x :: x in objects ==> x in if IsTree(x) then trees else files
  }

  ghost function AllTrees(): iset<Hash> {
    iset x | IsTree(x)
  }

  // Modes that say the right kinds never mix them.
  lemma {:induction false} SoundAgrees(h: Hash)
    requires Sound(h)
    ensures Agrees(AllTrees(), h, IsTree(h))
    decreases h
  {
    if IsTree(h) {
      forall i | 0 <= i < |h.obj.entries|
        ensures Agrees(AllTrees(), h.obj.entries[i].hash, h.obj.entries[i].mode.Dir?)
      {
        assert KindMatches(h.obj.entries[i]);
        SoundAgrees(h.obj.entries[i].hash);
      }
    }
  }

  lemma {:induction false} SoundWalked(h: Hash)
    requires Sound(h)
    ensures Walked(h, IsTree(h)) == Reach(h)
    decreases h
  {
    if IsTree(h) {
      var es := h.obj.entries;
      forall i | 0 <= i < |es| ensures Walked(es[i].hash, es[i].mode.Dir?) == Reach(es[i].hash) {
        assert KindMatches(es[i]);
        SoundWalked(es[i].hash);
      }
      forall x ensures x in WalkedAll(es) <==> exists i :: 0 <= i < |es| && x in Reach(es[i].hash) {
      }
    }
  }

  lemma {:induction false} SoundWalkable(files: set<Hash>, trees: set<Hash>, h: Hash)
    requires Sound(h)
    ensures Walkable(files, trees, h, IsTree(h)) <==> HeldByKind(files, trees, Reach(h))
    decreases h
  {
    if IsTree(h) {
      var es := h.obj.entries;
      forall i | 0 <= i < |es|
        ensures Walkable(files, trees, es[i].hash, es[i].mode.Dir?) <==> HeldByKind(files, trees, Reach(es[i].hash))
        ensures Reach(es[i].hash) <= Reach(h)
      {
        assert KindMatches(es[i]);
        SoundWalkable(files, trees, es[i].hash);
      }
    }
  }

  // For them a walk is what the roots reach, and can be made when that is held.
  lemma SaneWalks(files: set<Hash>, trees: set<Hash>, roots: seq<Hash>)
    requires Sane(roots)
    ensures Unmixed(roots) && RootsWalked(roots, |roots|) == Union(roots)
    ensures RootsWalkable(files, trees, roots, |roots|) <==> HeldByKind(files, trees, Union(roots))
  {
    forall i | 0 <= i < |roots| && roots[i] != Zero
      ensures Agrees(AllTrees(), roots[i], true) && Walked(roots[i], true) == Reach(roots[i])
      ensures Walkable(files, trees, roots[i], true) <==> HeldByKind(files, trees, Reach(roots[i]))
    {
      SoundAgrees(roots[i]);
      SoundWalked(roots[i]);
      SoundWalkable(files, trees, roots[i]);
    }
    assert RootsAgree(AllTrees(), roots);
  }
}
