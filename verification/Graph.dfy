// The client's copy of the objects: what it has been pushed, held in maps that
// accumulate until a sweep drops what the states still wanted do not reach.

module Graph {
  import opened Basics
  import opened Git
  import opened Mark

  class Graph {
    var blobs: map<Hash, Bytes>
    var trees: map<Hash, seq<Entry>>

    // Objects arrive under the hash of what they are.
    ghost predicate Valid()
      reads this
    {
      && (forall h :: h in blobs ==> h == Digest(Blob(blobs[h])))
      && (forall h :: h in trees ==> h == Digest(Tree(trees[h])))
    }

    ghost function Held(): set<Hash>
      reads this
    {
      blobs.Keys + trees.Keys
    }

    constructor ()
      ensures Valid() && Held() == {}
    {
      blobs, trees := map[], map[];
    }

    method OnBlob(h: Hash, content: Bytes)
      requires Valid() && h == Digest(Blob(content))
      modifies this`blobs
      ensures Valid() && Held() == old(Held()) + {h}
    {
      blobs := blobs[h := content];
    }

    method OnTree(h: Hash, entries: seq<Entry>)
      requires Valid() && h == Digest(Tree(entries))
      modifies this`trees
      ensures Valid() && Held() == old(Held()) + {h}
    {
      trees := trees[h := entries];
    }

    /** Collects what lies beneath the tree at h; the first thing missing is an
        error. */
    method MarkBelow(h: Hash, live: set<Hash>) returns (r: Option<set<Hash>>)
      requires Valid()
      ensures r == if h in trees then MarkedAll(blobs.Keys, trees.Keys, h.obj.entries, live) else None
      decreases h
    {
      if h !in trees {
        return None;
      }
      var entries := trees[h];
      var marks, i := live, 0;
      ghost var left := entries;
      while i < |entries|
        invariant 0 <= i <= |entries| && left == entries[i..]
        invariant MarkedAll(blobs.Keys, trees.Keys, h.obj.entries, live) == MarkedAll(blobs.Keys, trees.Keys, left, marks)
      {
        var e := entries[i];
        left := left[1..];
        if e.hash !in marks {
          if !e.mode.Dir? && e.hash !in blobs {
            return None;
          }
          marks := marks + {e.hash};
          if e.mode.Dir? {
            var below := MarkBelow(e.hash, marks);
            if below.None? {
              return None;
            }
            marks := below.value;
          }
        }
        i := i + 1;
      }
      return Some(marks);
    }

    /** Adds what a walk from h meets to marks that are good for all beneath
        them. A root marked before is walked again, to no effect. */
    method Mark(h: Hash, live: set<Hash>) returns (r: Option<set<Hash>>)
      requires Valid()
      ensures Walkable(blobs.Keys, trees.Keys, h, true) ==> r.Some?
      ensures forall dirs :: Agrees(dirs, h, true) && AllGood(blobs.Keys, trees.Keys, dirs, live) ==>
                r == if Walkable(blobs.Keys, trees.Keys, h, true) then Some(live + Walked(h, true)) else None
    {
      if h !in trees {
        return None;
      }
      r := MarkBelow(h, live + {h});
      ghost var es, marks := h.obj.entries, live + {h};
      if AllWalkable(blobs.Keys, trees.Keys, es) { AllWalkableMarked(blobs.Keys, trees.Keys, es, marks); }
      forall dirs | Agrees(dirs, h, true) && AllGood(blobs.Keys, trees.Keys, dirs, live)
        ensures r == if Walkable(blobs.Keys, trees.Keys, h, true) then Some(live + Walked(h, true)) else None
      {
        MarkedAllExact(blobs.Keys, trees.Keys, dirs, es, marks, Rank(h));
        assert marks + WalkedAll(es) == live + Walked(h, true);
      }
    }

    /** Drops every object the named roots do not reach, and says how many. That
        the roots can all be walked is success and no object going by two kinds;
        a failure drops nothing. */
    method Retain(roots: seq<Hash>) returns (r: Result<nat>)
      requires Valid()
      modifies this
      ensures Valid()
      ensures r.Err? ==> blobs == old(blobs) && trees == old(trees)
      ensures old(RootsWalkable(blobs.Keys, trees.Keys, roots, |roots|)) <==> r.Ok? && Unmixed(roots)
      ensures r.Ok? && Unmixed(roots) ==> Held() == RootsWalked(roots, |roots|)
      ensures Sane(roots) ==> (r.Ok? <==> Union(roots) <= old(Held()))
      ensures r.Ok? ==> blobs.Keys <= old(blobs).Keys && trees.Keys <= old(trees).Keys
      ensures r.Ok? && Sane(roots) ==> Held() == Union(roots)
      ensures r.Ok? ==> r.value == old(|blobs| + |trees|) - (|blobs| + |trees|)
    {
      var marks := MarkRoots(roots);
      if RootsWalkable(blobs.Keys, trees.Keys, roots, |roots|) { WalkedHeld(roots); }
      if Sane(roots) { SaneHeld(roots); }
      if marks.None? {
        return Err;
      }
      var dropped := SweepKeeping(marks.value);
      return Ok(dropped);
    }

    static lemma BothKept(a: set<Hash>, b: set<Hash>, live: set<Hash>)
      ensures a * live + b * live == (a + b) * live
    {
    }

    method SweepKeeping(live: set<Hash>) returns (dropped: nat)
      requires Valid()
      modifies this
      ensures Valid() && blobs.Keys == old(blobs).Keys * live && trees.Keys == old(trees).Keys * live
      ensures Held() == old(Held()) * live
      ensures blobs.Keys <= old(blobs).Keys && trees.Keys <= old(trees).Keys
      ensures dropped == old(|blobs| + |trees|) - (|blobs| + |trees|)
    {
      BothKept(blobs.Keys, trees.Keys, live);
      dropped := SweepBlobs(live);
      var more := SweepTrees(live);
      dropped := dropped + more;
    }

    method MarkRoots(roots: seq<Hash>) returns (r: Option<set<Hash>>)
      requires Valid()
      ensures RootsWalkable(blobs.Keys, trees.Keys, roots, |roots|) ==> r.Some?
      ensures Unmixed(roots) && r.Some? ==>
                RootsWalkable(blobs.Keys, trees.Keys, roots, |roots|) && r.value == RootsWalked(roots, |roots|)
    {
      var live, i := {}, 0;
      while i < |roots|
        invariant 0 <= i <= |roots|
        invariant Unmixed(roots) ==> RootsWalkable(blobs.Keys, trees.Keys, roots, i) && live == RootsWalked(roots, i)
      {
        RootsWalkedGrows(roots, i);
        if roots[i] != Zero {
          var marks := Mark(roots[i], live);
          if Unmixed(roots) {
            var dirs :| RootsAgree(dirs, roots);
            RootsGood(blobs.Keys, trees.Keys, dirs, roots, i);
          }
          if marks.None? {
            return None;
          }
          live := marks.value;
        }
        i := i + 1;
      }
      return Some(live);
    }

    method SweepBlobs(live: set<Hash>) returns (dropped: nat)
      requires Valid()
      modifies this`blobs
      ensures Valid() && blobs.Keys == old(blobs).Keys * live
      ensures dropped == |old(blobs)| - |blobs|
    {
      var todo := blobs.Keys;
      dropped := 0;
      while todo != {}
        invariant Valid() && todo <= blobs.Keys
        invariant blobs.Keys == old(blobs).Keys * (live + todo)
        invariant dropped == |old(blobs)| - |blobs|
      {
        var h :| h in todo;
        todo := todo - {h};
        if h !in live {
          ghost var before := blobs;
          blobs := blobs - {h};
          assert before == blobs[h := before[h]];
          dropped := dropped + 1;
        }
      }
    }

    method SweepTrees(live: set<Hash>) returns (dropped: nat)
      requires Valid()
      modifies this`trees
      ensures Valid() && trees.Keys == old(trees).Keys * live
      ensures dropped == |old(trees)| - |trees|
    {
      var todo := trees.Keys;
      dropped := 0;
      while todo != {}
        invariant Valid() && todo <= trees.Keys
        invariant trees.Keys == old(trees).Keys * (live + todo)
        invariant dropped == |old(trees)| - |trees|
      {
        var h :| h in todo;
        todo := todo - {h};
        if h !in live {
          ghost var before := trees;
          trees := trees - {h};
          assert before == trees[h := before[h]];
          dropped := dropped + 1;
        }
      }
    }

    lemma WalkedHeld(roots: seq<Hash>)
      requires Valid() && RootsWalkable(blobs.Keys, trees.Keys, roots, |roots|)
      ensures Unmixed(roots) && Held() * RootsWalked(roots, |roots|) == RootsWalked(roots, |roots|)
    {
      WalkableUnmixed(blobs.Keys, trees.Keys, roots);
      RootsWalkedHeld(blobs.Keys, trees.Keys, roots);
    }

    // For sound trees, what the roots reach is all there is to hold.
    lemma SaneHeld(roots: seq<Hash>)
      requires Valid() && Sane(roots)
      ensures Unmixed(roots) && RootsWalked(roots, |roots|) == Union(roots)
      ensures RootsWalkable(blobs.Keys, trees.Keys, roots, |roots|) <==> Union(roots) <= Held()
      ensures Union(roots) <= Held() ==> Held() * Union(roots) == Union(roots)
    {
      SaneWalks(blobs.Keys, trees.Keys, roots);
    }
  }
}
