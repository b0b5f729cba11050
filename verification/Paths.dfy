// Paths as they travel: components joined by slashes.

module Paths {
  import opened Basics
  import opened Git

  function Join(p: Path): string {
    if p == [] then ""
    else if |p| == 1 then p[0]
    else p[0] + "/" + Join(p[1..])
  }

  // One more component comes after one more slash.
  lemma {:induction false} JoinMore(p: Path, name: string)
    ensures Join(p + [name]) == if p == [] then name else Join(p) + "/" + name
  {
    if p == [] {
      assert [] + [name] == [name];
    } else {
      assert (p + [name])[1..] == p[1..] + [name];
      JoinMore(p[1..], name);
    }
  }

  ghost predicate ValidPath(p: Path) {
    forall i :: 0 <= i < |p| ==> ValidName(p[i])
  }

  lemma JoinNonempty(p: Path)
    requires ValidPath(p) && p != []
    ensures Join(p) != ""
  {
  }

  // Where the first slash falls says where the first component ends.
  lemma {:induction false} JoinInjective(p: Path, q: Path)
    requires ValidPath(p) && ValidPath(q) && Join(p) == Join(q)
    ensures p == q
    decreases |p|
  {
    if p == [] {
      if q != [] { JoinNonempty(q); }
    } else if q == [] {
      JoinNonempty(p);
    } else {
      var s := Join(p);
      assert s[..|p[0]|] == p[0] && s[..|q[0]|] == q[0];
      assert |p| > 1 ==> s[|p[0]|] == '/';
      assert |q| > 1 ==> s[|q[0]|] == '/';
      assert |p| == 1 ==> |s| == |p[0]|;
      assert |q| == 1 ==> |s| == |q[0]|;
      assert forall i :: 0 <= i < |p[0]| ==> p[0][i] == s[i];
      assert forall i :: 0 <= i < |q[0]| ==> q[0][i] == s[i];
      assert |p[0]| == |q[0]|;
      if |p| > 1 {
        assert |q| > 1;
        assert Join(p[1..]) == s[|p[0]| + 1..] == Join(q[1..]);
        JoinInjective(p[1..], q[1..]);
        assert p == [p[0]] + p[1..] && q == [q[0]] + q[1..];
      }
    }
  }

  // A path to a file of a well-formed tree is made of valid names.
  lemma {:induction false} LeafPathValid(h: Hash, p: Path)
    requires WellFormed(h) && LeafAt(h, p).Some?
    ensures ValidPath(p) && p != []
    decreases |p|
  {
    var e := Find(h.obj.entries, p[0]).value;
    var i :| 0 <= i < |h.obj.entries| && h.obj.entries[i] == e;
    if e.mode.Dir? {
      LeafPathValid(e.hash, p[1..]);
    }
    assert p == [p[0]] + p[1..];
  }

  lemma {:induction false} LeafReached(h: Hash, p: Path)
    requires LeafAt(h, p).Some?
    ensures LeafAt(h, p).value.hash in Reach(h) && !LeafAt(h, p).value.mode.Dir?
    ensures WellFormed(h) ==> IsBlob(LeafAt(h, p).value.hash)
    decreases |p|
  {
    var e := Find(h.obj.entries, p[0]).value;
    var i :| 0 <= i < |h.obj.entries| && h.obj.entries[i] == e;
    assert WellFormed(h) ==> KindMatches(h.obj.entries[i]);
    assert e.hash in Reach(e.hash);
    if e.mode.Dir? {
      LeafReached(e.hash, p[1..]);
    }
  }
}
