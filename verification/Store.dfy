// The server's object store: content-addressed objects, and beside them a memo
// of what each tree parses to. The memo hands its slices out, and callers
// rewrite slices of their own in place, so what keeps the two from meeting is
// which slices are cloned.

module Store {
  import opened Basics
  import opened Sorting
  import opened Git
  import opened Mark
  import opened Replace

  // ----- Order -----

  function SortLen(e: Entry): nat {
    if e.mode.Dir? then |e.name| + 1 else |e.name|
  }

  function SortByte(e: Entry, i: nat): char {
    if i < |e.name| then e.name[i] else '/'
  }

  lemma SortBytes(e: Entry)
    ensures |SortName(e)| == SortLen(e)
    ensures forall i :: 0 <= i < SortLen(e) ==> SortName(e)[i] == SortByte(e, i)
  {
  }

  method CompareBytes(a: Entry, b: Entry) returns (c: int)
    ensures c == Cmp(SortName(a), SortName(b))
  {
    var la: int, lb: int := SortLen(a), SortLen(b);
    ghost var sa, sb := SortName(a), SortName(b);
    SortBytes(a);
    SortBytes(b);
    var i := 0;
    while i < la && i < lb
      invariant 0 <= i <= la && i <= lb
      invariant sa[..i] == sb[..i]
    {
      var ca, cb := SortByte(a, i), SortByte(b, i);
      CmpSkipsCommon(sa, sb, i);
      if ca != cb {
        return ca as int - cb as int;
      }
      assert sa[..i + 1] == sa[..i] + [ca] && sb[..i + 1] == sb[..i] + [cb];
      i := i + 1;
    }
    CmpSkipsCommon(sa, sb, i);
    return la - lb;
  }

  lemma SignIsByteOrder(a: Entry, b: Entry)
    ensures var x, y := a.name + (if a.mode.Dir? then "/" else ""), b.name + (if b.mode.Dir? then "/" else "");
            var c := Cmp(SortName(a), SortName(b));
            && (c < 0 <==> exists i :: 0 <= i <= |x| && i <= |y| && x[..i] == y[..i] &&
                                       (if i == |x| then i < |y| else i < |y| && x[i] < y[i]))
            && (c > 0 <==> exists i :: 0 <= i <= |x| && i <= |y| && x[..i] == y[..i] &&
                                       (if i == |y| then i < |x| else i < |x| && y[i] < x[i]))
            && (c == 0 <==> x == y)
  {
    var x, y := SortName(a), SortName(b);
    assert x == a.name + (if a.mode.Dir? then "/" else "") && y == b.name + (if b.mode.Dir? then "/" else "");
    LessIsByteOrder(x, y);
    LessIsByteOrder(y, x);
    CmpAntisymmetric(x, y);
    CmpIsEquality(x, y);
    if i :| 0 <= i <= |y| && i <= |x| && y[..i] == x[..i] && (if i == |y| then i < |x| else i < |x| && y[i] < x[i]) {
      assert x[..i] == y[..i];
    }
  }

  /** Compares two sort names byte by byte without building either: which comes
      first is decided by the first byte that differs, or by the shorter one
      ending, with a slash where a directory's name ends. */
  method CompareEntries(a: Entry, b: Entry) returns (c: int)
    ensures c == Cmp(SortName(a), SortName(b))
    ensures var x, y := a.name + (if a.mode.Dir? then "/" else ""), b.name + (if b.mode.Dir? then "/" else "");
            c < 0 <==> exists i :: 0 <= i <= |x| && i <= |y| && x[..i] == y[..i] &&
                                   (if i == |x| then i < |y| else i < |y| && x[i] < y[i])
    ensures var x, y := a.name + (if a.mode.Dir? then "/" else ""), b.name + (if b.mode.Dir? then "/" else "");
            c > 0 <==> exists i :: 0 <= i <= |x| && i <= |y| && x[..i] == y[..i] &&
                                   (if i == |y| then i < |x| else i < |x| && y[i] < x[i])
    ensures c == 0 <==> a.name + (if a.mode.Dir? then "/" else "") == b.name + (if b.mode.Dir? then "/" else "")
  {
    c := CompareBytes(a, b);
    SignIsByteOrder(a, b);
  }

  method IsSorted(es: seq<Entry>) returns (yes: bool)
    ensures yes <==> Sorted(es) == es
    ensures yes <==> Ordered(es)
  {
    SortByOrders(SortName, es);
    if Ordered(es) { SortByFixesOrdered(SortName, es); }
    var i := 1;
    while i < |es|
      invariant |es| > 0 ==> 1 <= i <= |es|
      invariant forall j, k :: 0 <= j < k < i && k < |es| ==> !Before(es[k], es[j])
    {
      var c := CompareEntries(es[i], es[i - 1]);
      if c < 0 {
        return false;
      }
      forall j | 0 <= j < i ensures !Before(es[i], es[j]) {
        if j < i - 1 { NotLessTransitive(SortName(es[i]), SortName(es[i - 1]), SortName(es[j])); }
      }
      i := i + 1;
    }
    return true;
  }

  method Slice(es: seq<Entry>) returns (a: array<Entry>)
    ensures fresh(a) && a[..] == es
  {
    a := new Entry[|es|](i requires 0 <= i < |es| => es[i]);
  }

  function Below(h: Hash, rest: Path, content: Bytes): Option<Hash> {
    if rest == [] then Some(Digest(Blob(content))) else Replaced(h, rest, content)
  }

  ghost function WrittenBelow(h: Hash, rest: Path, content: Bytes): set<Hash>
    requires Below(h, rest, content).Some?
  {
    if rest == [] then {Digest(Blob(content))} else Written(h, rest, content)
  }

  // One tree's part of a replacement.
  lemma BelowStep(h: Hash, p: Path, content: Bytes)
    requires p != [] && IsTree(h) && IndexOf(h.obj.entries, p[0]) < |h.obj.entries|
    ensures var es := h.obj.entries;
            var i := IndexOf(es, p[0]);
            var below := Below(es[i].hash, p[1..], content);
            if below.None? then Replaced(h, p, content).None?
            else
              && Replaced(h, p, content) == Some(Rewritten(es, i, below.value))
              && Written(h, p, content) == WrittenBelow(es[i].hash, p[1..], content) + {Rewritten(es, i, below.value)}
  {
    assert p[1..] == [] <==> |p| == 1;
  }

  // ----- The store -----

  class Store {
    var objects: map<Hash, Object>
    var decoded: map<Hash, array<Entry>>

    // What is remembered for a tree is what the object says.
    ghost predicate Valid()
      reads this, decoded.Values
    {
      && (forall h :: h in objects ==> h == Digest(objects[h]))
      && (forall h :: h in decoded ==> h in objects && IsTree(h) && decoded[h][..] == h.obj.entries)
    }

    ghost function Held(): set<Hash>
      reads this
    {
      objects.Keys
    }

    ghost predicate Addressed()
      reads this
    {
      forall h :: h in objects ==> h == Digest(objects[h])
    }

    ghost predicate Remembers(before: map<Hash, array<Entry>>)
      reads this
    {
      forall h :: h in before ==> h in decoded && decoded[h] == before[h]
    }

    // No slice of the memo is one a caller may write to.
    ghost predicate Keeps(mine: array<Entry>)
      reads this
    {
      mine !in decoded.Values
    }

    constructor ()
      ensures Valid() && Held() == {} && decoded == map[]
    {
      objects, decoded := map[], map[];
    }

    /** The memo's slice for the tree at h, made if there was none: the same
        array whenever it is asked for. */
    method Entries(h: Hash) returns (r: Option<array<Entry>>)
      requires Valid()
      modifies this`decoded
      ensures Valid()
      ensures r.Some? <==> h in objects && IsTree(h)
      ensures r.Some? ==> r.value[..] == h.obj.entries && h in decoded && decoded[h] == r.value
      ensures forall a: array<Entry> :: a in decoded.Values ==> a in old(decoded.Values) || fresh(a)
      ensures Remembers(old(decoded))
    {
      if h in decoded {
        return Some(decoded[h]);
      }
      if h !in objects || !objects[h].Tree? {
        return None;
      }
      var parsed := objects[h].entries;
      var entries := Slice(parsed);
      decoded := decoded[h := entries];
      return Some(entries);
    }

    method AddBlob(content: Bytes) returns (h: Hash)
      requires Valid()
      modifies this`objects
      ensures Valid() && h == Digest(Blob(content)) && Held() == old(Held()) + {h}
    {
      h := Digest(Blob(content));
      objects := objects[h := Blob(content)];
    }

    /** Stores the entries as a tree, in canonical order whatever order they
        came in. The memo keeps a clone: the caller's slice stays the caller's. */
    method AddTree(entries: array<Entry>) returns (h: Hash)
      requires Valid()
      modifies this
      ensures Valid() && h == Digest(Tree(Sorted(old(entries[..])))) && Held() == old(Held()) + {h}
      ensures h in decoded && fresh(decoded[h]) && decoded == old(decoded)[h := decoded[h]]
    {
      var given := entries[..];
      var inOrder := IsSorted(given);
      var order := if inOrder then given else Sorted(given);
      var clone := Slice(order);
      h := Digest(Tree(order));
      objects := objects[h := Tree(order)];
      decoded := decoded[h := clone];
    }

    /** Rewrites the blob at a path and every tree on the way to it, and returns
        the new root. None is a path the tree does not have. */
    method ReplaceBlob(h: Hash, parts: Path, content: Bytes) returns (r: Option<Hash>)
      requires Valid() && parts != []
      modifies this
      ensures Valid()
      ensures r.None? ==> Held() == old(Held())
      ensures r.Some? ==> r == Replaced(h, parts, content) && Held() == old(Held()) + Written(h, parts, content)
      ensures Closed(old(Held())) && h in old(Held()) ==> r == Replaced(h, parts, content)
      ensures forall a: array<Entry> :: a in decoded.Values ==> a in old(decoded.Values) || fresh(a)
      decreases |parts|, 0
    {
      var current := Entries(h);
      if current.None? {
        return None;
      }
      // A list of its own, so that rewriting it keeps Valid.
      var entries := Slice(current.value[..]);
      ghost var es := h.obj.entries;
      var i := Lookup(entries, parts[0]);
      if i == entries.Length {
        return None;
      }
      assert Closed(Held()) && h in Held() ==> es[i].hash in Held();
      BelowStep(h, parts, content);
      var below := PutBelow(entries[i].hash, parts[1..], content);
      if below.None? {
        return None;
      }
      var n := Rewrite(entries, i, below.value);
      return Some(n);
    }

    /** What a rewritten entry is to name: the blob where the path ends, a tree
        rewritten in turn before that. */
    method PutBelow(h: Hash, rest: Path, content: Bytes) returns (r: Option<Hash>)
      requires Valid()
      modifies this
      ensures Valid()
      ensures r.None? ==> Held() == old(Held())
      ensures r.Some? ==> r == Below(h, rest, content) && Held() == old(Held()) + WrittenBelow(h, rest, content)
      ensures Closed(old(Held())) && h in old(Held()) ==> r == Below(h, rest, content)
      ensures forall a: array<Entry> :: a in decoded.Values ==> a in old(decoded.Values) || fresh(a)
      decreases |rest|, 1
    {
      if rest == [] {
        var blob := AddBlob(content);
        return Some(blob);
      }
      r := ReplaceBlob(h, rest, content);
    }

    /** Moves one hash of a slice that is not the memo's, in place, and stores
        the tree it then describes. */
    method Rewrite(entries: array<Entry>, i: nat, hash: Hash) returns (n: Hash)
      requires Valid() && Keeps(entries) && i < entries.Length
      modifies this, entries
      ensures Valid() && Keeps(entries)
      ensures entries[..] == old(entries[..])[i := old(entries[i]).(hash := hash)]
      ensures n == Rewritten(old(entries[..]), i, hash) && Held() == old(Held()) + {n}
      ensures forall a: array<Entry> :: a in decoded.Values ==> a in old(decoded.Values) || fresh(a)
    {
      entries[i] := entries[i].(hash := hash);
      assert entries[..] == old(entries[..])[i := old(entries[i]).(hash := hash)];
      n := AddTree(entries);
    }

    /** Takes everything at h into another store, pruning at what it has. */
    method Take(h: Hash, isTree: bool, into: Store) returns (ok: bool)
      requires Valid() && this != into && into.Held() <= Held() && into.Addressed()
      modifies this`decoded, into`objects
      ensures Valid() && into.Addressed() && into.Held() <= Held()
      ensures Remembers(old(decoded))
      ensures forall a: array<Entry> :: a in decoded.Values ==> a in old(decoded.Values) || fresh(a)
      ensures Marked(Held(), Held(), h, isTree, old(into.Held())) == if ok then Some(into.Held()) else None
      decreases h
    {
      if h in into.objects {
        return true;
      }
      if h !in objects {
        return false;
      }
      into.objects := into.objects[h := objects[h]];
      assert into.Held() == old(into.Held()) + {h};
      if !isTree {
        return true;
      }
      var entries := Entries(h);
      if entries.None? {
        return false;
      }
      ok := TakeAll(h, entries.value, into);
    }

    method TakeAll(ghost h: Hash, entries: array<Entry>, into: Store) returns (ok: bool)
      requires Valid() && this != into && into.Held() <= Held() && into.Addressed()
      requires IsTree(h) && h in decoded && decoded[h] == entries
      modifies this`decoded, into`objects
      ensures Valid() && into.Addressed() && into.Held() <= Held()
      ensures Remembers(old(decoded))
      ensures forall a: array<Entry> :: a in decoded.Values ==> a in old(decoded.Values) || fresh(a)
      ensures MarkedAll(Held(), Held(), h.obj.entries, old(into.Held())) == if ok then Some(into.Held()) else None
      decreases h, 0
    {
      var i := 0;
      ghost var left := h.obj.entries;
      while i < entries.Length
        invariant Valid() && into.Addressed() && into.Held() <= Held()
        invariant Remembers(old(decoded))
        invariant forall a: array<Entry> :: a in decoded.Values ==> a in old(decoded.Values) || fresh(a)
        invariant 0 <= i <= entries.Length && left == h.obj.entries[i..]
        invariant MarkedAll(Held(), Held(), h.obj.entries, old(into.Held())) == MarkedAll(Held(), Held(), left, into.Held())
      {
        assert entries[i] == h.obj.entries[i] == left[0];
        left := left[1..];
        var fine := Take(entries[i].hash, entries[i].mode == Dir, into);
        if !fine {
          return false;
        }
        i := i + 1;
      }
      return true;
    }

    method TakeRoots(roots: seq<Hash>, into: Store) returns (ok: bool)
      requires Valid() && this != into && into.Held() == {}
      modifies this`decoded, into`objects
      ensures Valid() && into.Addressed() && into.Held() <= Held()
      ensures forall a: array<Entry> :: a in decoded.Values ==> a in old(decoded.Values) || fresh(a)
      ensures RootsWalkable(Held(), Held(), roots, |roots|) ==> ok
      ensures Unmixed(roots) && ok ==>
                RootsWalkable(Held(), Held(), roots, |roots|) && into.Held() == RootsWalked(roots, |roots|)
    {
      var i := 0;
      while i < |roots|
        invariant Valid() && into.Addressed() && into.Held() <= Held()
        invariant forall a: array<Entry> :: a in decoded.Values ==> a in old(decoded.Values) || fresh(a)
        invariant 0 <= i <= |roots|
        invariant Unmixed(roots) ==> RootsWalkable(Held(), Held(), roots, i) && into.Held() == RootsWalked(roots, i)
      {
        var fine := TakeRoot(roots, i, into);
        if !fine {
          return false;
        }
        i := i + 1;
      }
      return true;
    }

    method TakeRoot(roots: seq<Hash>, i: nat, into: Store) returns (ok: bool)
      requires Valid() && this != into && into.Held() <= Held() && into.Addressed() && i < |roots|
      requires Unmixed(roots) ==> RootsWalkable(Held(), Held(), roots, i) && into.Held() == RootsWalked(roots, i)
      modifies this`decoded, into`objects
      ensures Valid() && into.Addressed() && into.Held() <= Held()
      ensures forall a: array<Entry> :: a in decoded.Values ==> a in old(decoded.Values) || fresh(a)
      ensures RootsWalkable(Held(), Held(), roots, |roots|) ==> ok
      ensures Unmixed(roots) && ok ==> RootsWalkable(Held(), Held(), roots, i + 1) && into.Held() == RootsWalked(roots, i + 1)
    {
      RootsWalkedGrows(roots, i);
      if roots[i] == Zero {
        return true;
      }
      if Unmixed(roots) { MarkRoot(Held(), Held(), roots, i); }
      if Walkable(Held(), Held(), roots[i], true) { WalkableMarked(Held(), Held(), roots[i], true, into.Held()); }
      ok := Take(roots[i], true, into);
    }

    /** The other store's lists, of the trees that are held here too. */
    method TakeMemo(other: Store)
      requires this != other && other.Valid() && Addressed()
      modifies this`decoded
      ensures Valid()
      ensures forall h :: h in decoded <==> h in other.decoded && h in objects
      ensures forall h :: h in decoded ==> decoded[h] == other.decoded[h]
    {
      decoded := map h | h in other.decoded && h in objects :: other.decoded[h];
    }

    /** Copies what walks from the roots meet into a new store, and counts what
        is left out. Roots that can all be walked succeed; where no object goes by
        two kinds, no others do. This store's objects stay as they are, and the
        two memos share their slices. */
    method Compact(roots: seq<Hash>) returns (out: Store, ok: bool, dropped: int)
      requires Valid()
      modifies this`decoded
      ensures Valid() && fresh(out) && out.Valid()
      ensures RootsWalkable(Held(), Held(), roots, |roots|) ==> ok
      ensures Unmixed(roots) && ok ==>
                RootsWalkable(Held(), Held(), roots, |roots|) && out.Held() == RootsWalked(roots, |roots|)
      ensures Sane(roots) ==> (ok <==> Union(roots) <= Held())
      ensures ok && Sane(roots) ==> out.Held() == Union(roots)
      ensures ok ==> out.Held() <= Held() && dropped == |objects| - |out.objects|
      ensures forall h :: h in out.decoded ==> h in decoded && out.decoded[h] == decoded[h]
      ensures ok ==> forall h :: h in decoded && h in out.objects ==> h in out.decoded
      ensures forall a: array<Entry> :: a in decoded.Values ==> a in old(decoded.Values) || fresh(a)
    {
      out := new Store();
      ok := TakeRoots(roots, out);
      if Sane(roots) { SaneWalks(Held(), Held(), roots); }
      dropped := 0;
      if ok {
        out.TakeMemo(this);
        dropped := |objects| - |out.objects|;
      }
    }

    /** Loads objects in turn, stopping at the first tree out of canonical
        order: it is stored sorted, under a hash other than its own. */
    method LoadPack(pack: seq<Object>) returns (ok: bool, loaded: nat)
      requires Valid()
      modifies this
      ensures Valid() && loaded <= |pack|
      ensures ok <==> loaded == |pack|
      ensures ok <==> forall i :: 0 <= i < |pack| && pack[i].Tree? ==> Ordered(pack[i].entries)
      ensures ok ==> Held() == old(Held()) + set i | 0 <= i < |pack| :: Digest(pack[i])
      ensures forall i :: 0 <= i < loaded ==> Digest(pack[i]) in Held()
      ensures forall a: array<Entry> :: a in decoded.Values ==> a in old(decoded.Values) || fresh(a)
    {
      loaded := 0;
      while loaded < |pack|
        invariant Valid() && loaded <= |pack|
        invariant forall i :: 0 <= i < loaded && pack[i].Tree? ==> Ordered(pack[i].entries)
        invariant Held() == old(Held()) + set i | 0 <= i < loaded :: Digest(pack[i])
        invariant forall a: array<Entry> :: a in decoded.Values ==> a in old(decoded.Values) || fresh(a)
      {
        var stored := Load(pack[loaded]);
        if stored != Digest(pack[loaded]) {
          return false, loaded;
        }
        loaded := loaded + 1;
      }
      return true, loaded;
    }

    method Load(obj: Object) returns (stored: Hash)
      requires Valid()
      modifies this
      ensures Valid() && Held() == old(Held()) + {stored}
      ensures stored == Digest(obj) <==> (obj.Tree? ==> Ordered(obj.entries))
      ensures forall a: array<Entry> :: a in decoded.Values ==> a in old(decoded.Values) || fresh(a)
    {
      match obj
      case Blob(content) =>
        stored := AddBlob(content);
      case Tree(es) =>
        SortByOrders(SortName, es);
        if Ordered(es) { SortByFixesOrdered(SortName, es); }
        var entries := Slice(es);
        stored := AddTree(entries);
    }
  }

  method Lookup(entries: array<Entry>, name: string) returns (i: nat)
    ensures i == IndexOf(entries[..], name)
  {
    i := 0;
    ghost var left := entries[..];
    while i < entries.Length && entries[i].name != name
      invariant 0 <= i <= entries.Length && left == entries[i..]
      invariant IndexOf(entries[..], name) == i + IndexOf(left, name)
    {
      left := left[1..];
      i := i + 1;
    }
  }

  // ----- A builder's node and its own slice -----

  /** The part of a tree node a builder keeps between builds: the entries it
      was last stored as, in a slice it rewrites in place, and their hash. */
  class CachedNode {
    var entries: array?<Entry>
    var tree: Hash

    // The slice is never one the memo hands out.
    ghost predicate Apart(s: Store)
      reads this, s
    {
      entries != null ==> s.Keeps(entries)
    }

    constructor ()
      ensures entries == null && tree == Zero
    {
      entries, tree := null, Zero;
    }

    /** Stores the node as these entries, keeping the caller's slice. */
    method Write(s: Store, es: array<Entry>)
      requires s.Valid() && s.Keeps(es)
      modifies this, s
      ensures s.Valid() && Apart(s) && entries == es
      ensures tree == Digest(Tree(Sorted(es[..]))) && s.Held() == old(s.Held()) + {tree}
      ensures forall a: array<Entry> :: a in s.decoded.Values ==> a in old(s.decoded.Values) || fresh(a)
    {
      tree := s.AddTree(es);
      entries := es;
    }

    // What the slice holds; nothing once it has been dropped.
    ghost function Slots(): seq<Entry>
      reads this, entries
    {
      if entries == null then [] else entries[..]
    }

    /** Moves one entry of the node's own slice, in place; done says whether the
        slice had an entry of that name and mode. */
    method Moved(s: Store, child: Entry) returns (done: bool)
      requires s.Valid() && Apart(s)
      modifies if entries == null then {} else {entries}
      ensures s.Valid() && Apart(s)
      ensures done <==> Placed(old(Slots()), child)
      ensures done ==> entries != null && Slots() == WithMoved(old(Slots()), child)
      ensures !done ==> Slots() == old(Slots())
    {
      if entries == null {
        return false;
      }
      var i := Lookup(entries, child.name);
      if i == entries.Length || entries[i].mode != child.mode {
        return false;
      }
      entries[i] := entries[i].(hash := child.hash);
      return true;
    }

    /** Stores the node again after one child moved: by rewriting that child's
        entry where the slice allows it, by collecting all of them otherwise. */
    method Restore(s: Store, child: Entry, all: seq<Entry>)
      requires s.Valid() && Apart(s)
      modifies this, s, if entries == null then {} else {entries}
      ensures s.Valid() && Apart(s) && entries != null
      ensures entries == old(entries) || fresh(entries)
      ensures Slots() == if Placed(old(Slots()), child) then WithMoved(old(Slots()), child) else all
      ensures tree == Digest(Tree(Sorted(Slots()))) && s.Held() == old(s.Held()) + {tree}
      ensures forall a: array<Entry> :: a in s.decoded.Values ==> a in old(s.decoded.Values) || fresh(a)
    {
      var done := Moved(s, child);
      if done {
        tree := s.AddTree(entries);
        return;
      }
      var es := Slice(all);
      Write(s, es);
    }
  }

  /** Goes on in a compacted store: the node stored again there is right in both,
      and its slice is in neither memo, though the two share theirs. */
  method CompactAndRestore(s: Store, n: CachedNode, roots: seq<Hash>, child: Entry, all: seq<Entry>)
    returns (out: Store, ok: bool, dropped: int)
    requires s.Valid() && n.Apart(s)
    modifies s`decoded, n, if n.entries == null then {} else {n.entries}
    ensures s.Valid() && fresh(out) && out.Valid() && n.Apart(s) && n.Apart(out) && n.entries != null
    ensures s.Held() == old(s.Held()) && n.tree in out.Held()
    ensures n.Slots() == if Placed(old(n.Slots()), child) then WithMoved(old(n.Slots()), child) else all
    ensures n.tree == Digest(Tree(Sorted(n.Slots())))
  {
    out, ok, dropped := s.Compact(roots);
    n.Restore(out, child, all);
  }

  // The first entry of the child's name is of the child's kind.
  predicate Placed(es: seq<Entry>, child: Entry) {
    var i := IndexOf(es, child.name);
    i < |es| && es[i].mode == child.mode
  }

  function WithMoved(es: seq<Entry>, child: Entry): seq<Entry>
    requires Placed(es, child)
  {
    var i := IndexOf(es, child.name);
    es[i := es[i].(hash := child.hash)]
  }
}
