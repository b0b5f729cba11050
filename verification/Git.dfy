// The git object model as the stores and the protocol see it. Hashing is
// ideal: a hash is the object it names, so it is injective and a tree can
// never reach itself.

module Git {
  import opened Basics
  import opened Sorting

  datatype Mode = Dir | Regular | Other(bits: nat)
  datatype Entry = Entry(name: string, mode: Mode, hash: Hash)
  datatype Object = Blob(content: Bytes) | Tree(entries: seq<Entry>)
  datatype Hash = Zero | Digest(obj: Object)

  type Path = seq<string>

  predicate IsTree(h: Hash) {
    h.Digest? && h.obj.Tree?
  }

  predicate IsBlob(h: Hash) {
    h.Digest? && h.obj.Blob?
  }

  // ----- Reaching -----

  /** Everything the object at h stands for: itself and all beneath it. */
  ghost function Reach(h: Hash): set<Hash> {
    {h} + if IsTree(h) then
            set i, x | 0 <= i < |h.obj.entries| && x in Reach(h.obj.entries[i].hash) :: x
          else {}
  }

  ghost function ReachAll(es: seq<Entry>): set<Hash> {
    set i, x | 0 <= i < |es| && x in Reach(es[i].hash) :: x
  }

  /** How deep the object at h is; strictly larger than anything it holds. */
  ghost function Rank(h: Hash): nat
    decreases h
  {
    if IsTree(h) then 1 + MaxRank(h.obj.entries) else 0
  }

  ghost function MaxRank(es: seq<Entry>): (r: nat)
    ensures forall i :: 0 <= i < |es| ==> Rank(es[i].hash) <= r
    decreases es
  {
    if es == [] then 0
    else
      var rest := MaxRank(es[1..]);
      var first := Rank(es[0].hash);
      assert forall i :: 0 < i < |es| ==> es[i] == es[1..][i - 1];
      if first > rest then first else rest
  }

  lemma {:induction false} ReachTransitive(a: Hash, b: Hash)
    requires b in Reach(a)
    ensures Reach(b) <= Reach(a)
    decreases a
  {
    if a != b {
      var i :| 0 <= i < |a.obj.entries| && b in Reach(a.obj.entries[i].hash);
      ReachTransitive(a.obj.entries[i].hash, b);
    }
  }

  /** An entry's mode says what kind of object its hash names. */
  predicate KindMatches(e: Entry) {
    if e.mode.Dir? then IsTree(e.hash) else IsBlob(e.hash)
  }

  /** Every entry beneath h names an object of the kind its mode says. */
  ghost predicate Sound(h: Hash) {
    IsTree(h) ==>
      forall i :: 0 <= i < |h.obj.entries| ==>
        KindMatches(h.obj.entries[i]) && Sound(h.obj.entries[i].hash)
  }

  lemma {:induction false} ReachNotZero(h: Hash)
    requires Sound(h) && h != Zero
    ensures Zero !in Reach(h)
    decreases h
  {
    if IsTree(h) {
      forall i | 0 <= i < |h.obj.entries| ensures Zero !in Reach(h.obj.entries[i].hash) {
        assert KindMatches(h.obj.entries[i]);
        ReachNotZero(h.obj.entries[i].hash);
      }
    }
  }

  /** A set of held objects in which every entry of a held tree is held too,
      as the kind its mode says. */
  ghost predicate Closed(held: set<Hash>) {
    forall h, i :: h in held && IsTree(h) && 0 <= i < |h.obj.entries| ==>
      KindMatches(h.obj.entries[i]) && h.obj.entries[i].hash in held
  }

  // In a closed store a held object's whole graph is held.
  lemma {:induction false} ClosedHoldsAll(held: set<Hash>, h: Hash)
    requires Closed(held) && h in held
    ensures Reach(h) <= held
    ensures Sound(h)
    decreases h
  {
    if IsTree(h) {
      forall i | 0 <= i < |h.obj.entries|
        ensures KindMatches(h.obj.entries[i])
        ensures Reach(h.obj.entries[i].hash) <= held && Sound(h.obj.entries[i].hash)
      {
        ClosedHoldsAll(held, h.obj.entries[i].hash);
      }
    }
  }

  // ----- Canonical order -----

  /** What entries are ordered by: the name, with a slash after a directory's. */
  function SortName(e: Entry): string {
    if e.mode.Dir? then e.name + "/" else e.name
  }

  predicate Before(a: Entry, b: Entry) {
    Less(SortName(a), SortName(b))
  }

  // Sorted, allowing repeats.
  ghost predicate Ordered(es: seq<Entry>) {
    OrderedBy(SortName, es)
  }

  /** Git's canonical order: strictly increasing, so no two entries share a
      name and a kind. */
  ghost predicate Canonical(es: seq<Entry>) {
    StrictBy(SortName, es)
  }

  function NameOf(e: Entry): string { e.name }

  ghost predicate UniqueNames(es: seq<Entry>) {
    DistinctBy(NameOf, es)
  }

  // What it takes for a name to stand as one path element.
  predicate ValidName(name: string) {
    name != "" && '/' !in name
  }

  ghost predicate ValidNames(es: seq<Entry>) {
    forall i :: 0 <= i < |es| ==> ValidName(es[i].name)
  }

  lemma SortNameDecides(a: Entry, b: Entry)
    requires ValidName(a.name) && ValidName(b.name)
    requires SortName(a) == SortName(b)
    ensures a.name == b.name && (a.mode.Dir? <==> b.mode.Dir?)
  {
    var s := SortName(a);
    assert a.mode.Dir? || b.mode.Dir? ==> s[|s| - 1] == '/';
    assert !a.mode.Dir? || !b.mode.Dir? ==> '/' !in s;
    assert a.mode.Dir? && b.mode.Dir? ==> a.name == s[..|s| - 1] == b.name;
  }

  /** Entries in canonical order. */
  function Sorted(es: seq<Entry>): seq<Entry> {
    SortBy(SortName, es)
  }

  /** A file comes before a directory of its own name, and one whose name goes on
      from there before or after it as its next byte is below the slash or not. */
  lemma SlashDecides(dir: Entry, file: Entry, rest: string)
    requires dir.mode.Dir? && !file.mode.Dir? && file.name == dir.name + rest
    ensures Before(file, dir) <==> rest == "" || rest[0] < '/'
    ensures Before(dir, file) <==> rest != "" && (rest[0] > '/' || (rest[0] == '/' && |rest| > 1))
  {
    var d, f := dir.name + "/", dir.name + rest;
    assert d[..|dir.name|] == f[..|dir.name|] == dir.name;
    assert d[|dir.name|..] == "/" && f[|dir.name|..] == rest;
    CmpSkipsCommon(f, d, |dir.name|);
    assert Cmp(rest, "/") == if rest == "" then -1 else if rest[0] != '/' then rest[0] as int - '/' as int else |rest[1..]|;
    CmpAntisymmetric(f, d);
  }

  // Sorting keeps each entry as often as it came, and puts them in byte order.
  lemma SortedBytes(es: seq<Entry>)
    ensures multiset(Sorted(es)) == multiset(es)
    ensures forall i, j :: 0 <= i < j < |Sorted(es)| ==>
              var a, b := SortName(Sorted(es)[i]), SortName(Sorted(es)[j]);
              a == b || exists k :: 0 <= k <= |a| && k <= |b| && a[..k] == b[..k] &&
                                    (if k == |a| then k < |b| else k < |b| && a[k] < b[k])
  {
    SortByKeeps(SortName, es);
    SortByOrders(SortName, es);
    var s := Sorted(es);
    forall i, j | 0 <= i < j < |s|
      ensures var a, b := SortName(s[i]), SortName(s[j]);
              a == b || exists k :: 0 <= k <= |a| && k <= |b| && a[..k] == b[..k] &&
                                    (if k == |a| then k < |b| else k < |b| && a[k] < b[k])
    {
      var a, b := SortName(s[i]), SortName(s[j]);
      CmpAntisymmetric(a, b);
      CmpIsEquality(a, b);
      LessIsByteOrder(a, b);
    }
  }

  // Sorting entries whose names can be told apart gives git's order.
  lemma SortedCanonical(es: seq<Entry>)
    requires ValidNames(es) && UniqueNames(es)
    ensures Canonical(Sorted(es)) && UniqueNames(Sorted(es)) && ValidNames(Sorted(es))
  {
    var s := Sorted(es);
    SortByOrders(SortName, es);
    SortByDistinct(SortName, NameOf, es);
    assert forall i :: 0 <= i < |s| ==> s[i] in es;
    forall i, j | 0 <= i < j < |s| ensures SortName(s[i]) != SortName(s[j]) {
      assert NameOf(s[i]) != NameOf(s[j]);
      if SortName(s[i]) == SortName(s[j]) {
        SortNameDecides(s[i], s[j]);
      }
    }
    OrderedDistinctIsStrict(SortName, s);
  }

  // ----- Leaves by path -----

  /** A tree every list in which is canonical, with names that can be path
      elements, none used twice, and modes that say the right kind. */
  ghost predicate WellFormed(h: Hash) {
    IsTree(h) ==>
      && Canonical(h.obj.entries)
      && UniqueNames(h.obj.entries)
      && ValidNames(h.obj.entries)
      && forall i :: 0 <= i < |h.obj.entries| ==>
           KindMatches(h.obj.entries[i]) && WellFormed(h.obj.entries[i].hash)
  }

  function Find(es: seq<Entry>, name: string): (r: Option<Entry>)
    ensures r.Some? ==> r.value in es && r.value.name == name
    ensures r.None? ==> forall e :: e in es ==> e.name != name
  {
    if es == [] then None
    else if es[0].name == name then Some(es[0])
    else
      assert forall e :: e in es ==> e == es[0] || e in es[1..];
      Find(es[1..], name)
  }

  lemma FindIsTheOne(es: seq<Entry>, e: Entry)
    requires UniqueNames(es) && e in es
    ensures Find(es, e.name) == Some(e)
  {
    var f := Find(es, e.name);
    var i :| 0 <= i < |es| && es[i] == e;
    var j :| 0 <= j < |es| && es[j] == f.value;
    assert i < j ==> NameOf(es[i]) != NameOf(es[j]);
    assert j < i ==> NameOf(es[j]) != NameOf(es[i]);
  }

  /** The file entry at path p beneath the tree at h, if there is one. */
  function LeafAt(h: Hash, p: Path): Option<Entry>
    decreases |p|
  {
    if p == [] || !IsTree(h) then None
    else
      match Find(h.obj.entries, p[0])
      case None => None
      case Some(e) =>
        if e.mode.Dir? then LeafAt(e.hash, p[1..])
        else if |p| == 1 then Some(e) else None
  }

  /** Some file lies beneath h. */
  ghost predicate HasLeaf(h: Hash) {
    exists p :: LeafAt(h, p).Some?
  }

  /** No directory beneath h, h itself aside, is without files. */
  ghost predicate NoEmptyDirs(h: Hash) {
    IsTree(h) ==>
      forall i :: 0 <= i < |h.obj.entries| && h.obj.entries[i].mode.Dir? ==>
        HasLeaf(h.obj.entries[i].hash) && NoEmptyDirs(h.obj.entries[i].hash)
  }

  ghost predicate SameLeaves(a: Hash, b: Hash) {
    forall p :: LeafAt(a, p) == LeafAt(b, p)
  }

  lemma LeafAtEntry(h: Hash, e: Entry, p: Path)
    requires IsTree(h) && UniqueNames(h.obj.entries) && e in h.obj.entries
    ensures e.mode.Dir? ==> LeafAt(h, [e.name] + p) == LeafAt(e.hash, p)
    ensures !e.mode.Dir? ==> LeafAt(h, [e.name] + p) == if p == [] then Some(e) else None
  {
    FindIsTheOne(h.obj.entries, e);
    assert ([e.name] + p)[1..] == p;
  }

  // A well-formed tree without empty directories is determined by its files:
  // equal leaf maps mean equal hashes.
  lemma {:induction false} LeavesDecideTree(a: Hash, b: Hash)
    requires IsTree(a) && IsTree(b) && WellFormed(a) && WellFormed(b)
    requires NoEmptyDirs(a) && NoEmptyDirs(b)
    requires SameLeaves(a, b)
    ensures a == b
    decreases Rank(a) + Rank(b), 1
  {
    forall e ensures e in a.obj.entries <==> e in b.obj.entries {
      if e in a.obj.entries { SameLeavesSameEntry(a, b, e); }
      if e in b.obj.entries { SameLeavesSameEntry(b, a, e); }
    }
    StrictUnique(SortName, a.obj.entries, b.obj.entries);
  }

  // The file found by a name alone is an entry.
  lemma FileIsEntry(h: Hash, e: Entry)
    requires IsTree(h) && LeafAt(h, [e.name]) == Some(e)
    ensures e in h.obj.entries
  {
    var f := Find(h.obj.entries, [e.name][0]);
    assert f.Some? && !f.value.mode.Dir?;
  }

  lemma {:induction false} SameLeavesSameEntry(a: Hash, b: Hash, e: Entry)
    requires IsTree(a) && IsTree(b) && WellFormed(a) && WellFormed(b)
    requires NoEmptyDirs(a) && NoEmptyDirs(b)
    requires SameLeaves(a, b)
    requires e in a.obj.entries
    ensures e in b.obj.entries
    decreases Rank(a) + Rank(b), 0
  {
    if e.mode.Dir? {
      var i :| 0 <= i < |a.obj.entries| && a.obj.entries[i] == e;
      assert HasLeaf(e.hash) && KindMatches(e);
      var p :| LeafAt(e.hash, p).Some?;
      LeafAtEntry(a, e, p);
      assert LeafAt(b, [e.name] + p).Some?;
      var f := Find(b.obj.entries, e.name).value;
      assert f.mode.Dir?;
      var j :| 0 <= j < |b.obj.entries| && b.obj.entries[j] == f;
      assert KindMatches(f);
      forall q ensures LeafAt(e.hash, q) == LeafAt(f.hash, q) {
        LeafAtEntry(a, e, q);
        LeafAtEntry(b, f, q);
        assert LeafAt(a, [e.name] + q) == LeafAt(b, [e.name] + q);
      }
      LeavesDecideTree(e.hash, f.hash);
    } else {
      LeafAtEntry(a, e, []);
      assert [e.name] + [] == [e.name];
      FileIsEntry(b, e);
    }
  }

  // ----- Entries by name -----

  // A later entry of a name takes the place of an earlier one.
  function ByName(es: seq<Entry>, name: string): Option<Entry> {
    if es == [] then None
    else
      var later := ByName(es[1..], name);
      if later.Some? then later
      else if es[0].name == name then Some(es[0]) else None
  }

  function NamesOf(es: seq<Entry>): set<string> {
    set i | 0 <= i < |es| :: es[i].name
  }

  lemma NamesSplit(es: seq<Entry>)
    requires es != []
    ensures NamesOf(es) == {es[0].name} + NamesOf(es[1..])
    ensures UniqueNames(es) ==> es[0].name !in NamesOf(es[1..])
  {
    forall n ensures n in NamesOf(es) <==> n == es[0].name || n in NamesOf(es[1..]) {
      if n in NamesOf(es) {
        var i :| 0 <= i < |es| && es[i].name == n;
        assert i > 0 ==> es[1..][i - 1] == es[i];
      }
      if n in NamesOf(es[1..]) {
        var i :| 0 <= i < |es[1..]| && es[1..][i].name == n;
        assert es[i + 1].name == n;
      }
    }
    if UniqueNames(es) {
      forall i | 0 <= i < |es[1..]| ensures es[1..][i].name != es[0].name {
        assert NameOf(es[0]) != NameOf(es[i + 1]);
      }
    }
  }

  lemma ByNameIsFind(es: seq<Entry>, name: string)
    requires UniqueNames(es)
    ensures ByName(es, name) == Find(es, name)
  {
    if es != [] {
      NamesSplit(es);
      ByNameIsFind(es[1..], name);
      var later := Find(es[1..], name);
      assert later.Some? ==> name in NamesOf(es[1..]);
    }
  }

  lemma Unnamed(es: seq<Entry>, n: string)
    requires n !in NamesOf(es)
    ensures ByName(es, n) == None
  {
    if es != [] {
      NamesSplit(es);
      Unnamed(es[1..], n);
    }
  }

  lemma ByNameMember(es: seq<Entry>, name: string)
    ensures ByName(es, name).Some? ==> ByName(es, name).value in es && ByName(es, name).value.name == name
  {
  }
}
