// Rewriting one blob, and what it costs a client to follow: the objects on the
// path to it and nothing else.

module Replace {
  import opened Basics
  import opened Sorting
  import opened Git
  import opened Select

  function IndexOf(es: seq<Entry>, name: string): (i: nat)
    ensures i <= |es|
    ensures i < |es| ==> es[i].name == name && Find(es, name) == Some(es[i])
    ensures i == |es| ==> Find(es, name).None?
  {
    if es == [] then 0
    else if es[0].name == name then 0
    else IndexOf(es[1..], name) + 1
  }

  /** The tree at h with the blob at p rewritten: the first entry of each name
      on the path is followed, and every tree on it is written again. */
  function Replaced(h: Hash, p: Path, content: Bytes): Option<Hash>
    decreases |p|
  {
    if p == [] || !IsTree(h) then None
    else
      var es := h.obj.entries;
      var i := IndexOf(es, p[0]);
      if i == |es| then None
      else if |p| == 1 then Some(Rewritten(es, i, Digest(Blob(content))))
      else
        match Replaced(es[i].hash, p[1..], content)
        case None => None
        case Some(below) => Some(Rewritten(es, i, below))
  }

  function Rewritten(es: seq<Entry>, i: nat, hash: Hash): Hash
    requires i < |es|
  {
    Digest(Tree(Sorted(es[i := es[i].(hash := hash)])))
  }

  // What rewriting the blob adds to a store.
  ghost function Written(h: Hash, p: Path, content: Bytes): set<Hash>
    requires Replaced(h, p, content).Some?
    decreases |p|
  {
    {Replaced(h, p, content).value} +
    if |p| == 1 then {Digest(Blob(content))}
    else Written(h.obj.entries[IndexOf(h.obj.entries, p[0])].hash, p[1..], content)
  }

  // A store that holds the old tree holds the new one too, in full.
  lemma {:induction false} WrittenClosed(held: set<Hash>, h: Hash, p: Path, content: Bytes)
    requires Closed(held) && h in held && LeafAt(h, p).Some? && Replaced(h, p, content).Some?
    ensures Closed(held + Written(h, p, content))
    decreases |p|
  {
    var es := h.obj.entries;
    var i := IndexOf(es, p[0]);
    var e := es[i];
    assert KindMatches(e);
    var added := if |p| == 1 then {Digest(Blob(content))} else Written(e.hash, p[1..], content);
    if |p| > 1 {
      WrittenClosed(held, e.hash, p[1..], content);
    }
    var below := if |p| == 1 then Digest(Blob(content)) else Replaced(e.hash, p[1..], content).value;
    var now := es[i := e.(hash := below)];
    assert Replaced(h, p, content) == Some(Digest(Tree(Sorted(now))));
    TreeKeepsClosed(held + added, now);
    assert held + Written(h, p, content) == held + added + {Digest(Tree(Sorted(now)))};
  }

  // Storing a tree whose entries are all held, as the kinds they say, leaves
  // no gap.
  lemma TreeKeepsClosed(held: set<Hash>, es: seq<Entry>)
    requires Closed(held)
    requires forall k :: 0 <= k < |es| ==> KindMatches(es[k]) && es[k].hash in held
    ensures Closed(held + {Digest(Tree(Sorted(es)))})
  {
    var s := Sorted(es);
    forall k | 0 <= k < |s| ensures KindMatches(s[k]) && s[k].hash in held {
      assert s[k] in es;
    }
  }

  // The objects met on the way down p.
  ghost function OnPath(h: Hash, p: Path): set<Hash>
    decreases |p|
  {
    {h} + if p == [] || !IsTree(h) then {}
          else match Find(h.obj.entries, p[0])
               case None => {}
               case Some(e) => OnPath(e.hash, p[1..])
  }

  lemma {:induction false} OnPathSize(h: Hash, p: Path)
    ensures |OnPath(h, p)| <= |p| + 1
    decreases |p|
  {
    if p != [] && IsTree(h) && Find(h.obj.entries, p[0]).Some? {
      var e := Find(h.obj.entries, p[0]).value;
      OnPathSize(e.hash, p[1..]);
      assert |{h} + OnPath(e.hash, p[1..])| <= |{h}| + |OnPath(e.hash, p[1..])|;
    }
  }

  // Moving one hash leaves a canonical list where it was, name by name.
  lemma RewrittenEntries(es: seq<Entry>, i: nat, hash: Hash)
    requires i < |es| && Canonical(es)
    ensures var now := Rewritten(es, i, hash).obj.entries;
            now == es[i := es[i].(hash := hash)] && Canonical(now)
  {
    var now := es[i := es[i].(hash := hash)];
    forall a, b | 0 <= a < b < |now|
      ensures Before(now[a], now[b]) && !Before(now[b], now[a])
    {
      assert Before(es[a], es[b]);
      CmpAntisymmetric(SortName(now[a]), SortName(now[b]));
    }
    SortByFixesOrdered(SortName, now);
  }

  lemma CounterpartOfItself(es: seq<Entry>, k: nat, e: Entry)
    requires k < |es| && UniqueNames(es)
    requires e.name == es[k].name && e.mode == es[k].mode
    ensures Counterpart(es, e) == es[k].hash
    decreases |es|
  {
    if k > 0 {
      assert es[0].name != es[k].name;
      CounterpartOfItself(es[1..], k - 1, e);
    }
  }

  lemma FindRewritten(es: seq<Entry>, now: seq<Entry>, i: nat, name: string)
    requires i < |es| && UniqueNames(es)
    requires |now| == |es| && now[i].name == es[i].name
    requires forall k :: 0 <= k < |es| && k != i ==> now[k] == es[k]
    ensures name == es[i].name ==> Find(now, name) == Some(now[i]) && Find(es, name) == Some(es[i])
    ensures name != es[i].name ==> Find(now, name) == Find(es, name)
    decreases |es|
  {
    if i > 0 {
      assert es[0].name != es[i].name;
      FindRewritten(es[1..], now[1..], i - 1, name);
    } else {
      assert now[1..] == es[1..];
    }
  }

  // What stands under the name p starts with, before and after.
  lemma ReplacedStep(h: Hash, p: Path, content: Bytes) returns (i: nat, below: Hash)
    requires WellFormed(h) && LeafAt(h, p).Some?
    requires |p| > 1 ==> Replaced(h.obj.entries[IndexOf(h.obj.entries, p[0])].hash, p[1..], content).Some?
    ensures i == IndexOf(h.obj.entries, p[0]) < |h.obj.entries| && KindMatches(h.obj.entries[i])
    ensures h.obj.entries[i].mode.Dir? <==> |p| > 1
    ensures below == if |p| > 1 then Replaced(h.obj.entries[i].hash, p[1..], content).value else Digest(Blob(content))
    ensures Replaced(h, p, content).Some? && IsTree(Replaced(h, p, content).value)
    ensures Replaced(h, p, content).value.obj.entries == h.obj.entries[i := h.obj.entries[i].(hash := below)]
    ensures Canonical(Replaced(h, p, content).value.obj.entries)
  {
    var es := h.obj.entries;
    i := IndexOf(es, p[0]);
    below := if |p| > 1 then Replaced(es[i].hash, p[1..], content).value else Digest(Blob(content));
    RewrittenEntries(es, i, below);
  }

  // A blob path that exists can be rewritten, and the result is well-formed.
  lemma {:induction false} ReplacedTree(h: Hash, p: Path, content: Bytes)
    requires WellFormed(h) && LeafAt(h, p).Some?
    ensures Replaced(h, p, content).Some?
    ensures IsTree(Replaced(h, p, content).value) && WellFormed(Replaced(h, p, content).value)
    decreases |p|
  {
    if |p| > 1 {
      ReplacedTree(Find(h.obj.entries, p[0]).value.hash, p[1..], content);
    }
    var i, below := ReplacedStep(h, p, content);
    var n := Replaced(h, p, content).value;
    assert forall k :: 0 <= k < |n.obj.entries| ==> n.obj.entries[k].name == h.obj.entries[k].name;
  }

  // It holds the new blob at p and is otherwise the same, leaf for leaf.
  lemma {:induction false} ReplacedLeaves(h: Hash, p: Path, content: Bytes, q: Path)
    requires WellFormed(h) && LeafAt(h, p).Some?
    requires Replaced(h, p, content).Some?
    ensures LeafAt(Replaced(h, p, content).value, q) ==
            if q == p then Some(LeafAt(h, p).value.(hash := Digest(Blob(content)))) else LeafAt(h, q)
    decreases |p|
  {
    if |p| > 1 {
      var below := Find(h.obj.entries, p[0]).value.hash;
      ReplacedTree(below, p[1..], content);
      if q != [] { ReplacedLeaves(below, p[1..], content, q[1..]); }
    }
    var i, below := ReplacedStep(h, p, content);
    assert p == [p[0]] + p[1..];
    if q != [] {
      assert q == [q[0]] + q[1..];
      FindRewritten(h.obj.entries, Replaced(h, p, content).value.obj.entries, i, q[0]);
    }
  }

  // Nothing off the path has moved.
  lemma {:induction false} ReplacedMoves(h: Hash, p: Path, content: Bytes)
    requires WellFormed(h) && LeafAt(h, p).Some?
    requires Replaced(h, p, content).Some?
    ensures Moved(h, Replaced(h, p, content).value) <= OnPath(Replaced(h, p, content).value, p)
    decreases |p|
  {
    if |p| > 1 {
      ReplacedTree(Find(h.obj.entries, p[0]).value.hash, p[1..], content);
      ReplacedMoves(Find(h.obj.entries, p[0]).value.hash, p[1..], content);
    }
    var i, below := ReplacedStep(h, p, content);
    var n, es := Replaced(h, p, content).value, h.obj.entries;
    var now := n.obj.entries;
    FindRewritten(es, now, i, p[0]);
    forall k, x | 0 <= k < |now| && x in Moved(Counterpart(es, now[k]), now[k].hash)
      ensures x in OnPath(n, p)
    {
      CounterpartOfItself(es, k, now[k]);
      assert k == i;
      assert |p| == 1 ==> p[1..] == [];
    }
  }

  lemma {:induction false} DistinctFit(out: seq<Hash>, bound: set<Hash>)
    requires NoRepeats(out) && forall x :: x in out ==> x in bound
    ensures |out| <= |bound|
  {
    if out != [] {
      var rest := out[1..];
      forall x | x in rest ensures x in bound - {out[0]} {
        var k :| 0 <= k < |rest| && rest[k] == x;
        assert out[0] != out[k + 1];
      }
      DistinctFit(rest, bound - {out[0]});
    }
  }

  // After one blob of a tree is rewritten, whatever SelectSince may select for
  // a client at the old root is on the path: one object per component, and
  // the root.
  lemma ReplaceCost(root: Hash, p: Path, content: Bytes, out: seq<Hash>)
    requires WellFormed(root) && LeafAt(root, p).Some?
    requires Replaced(root, p, content).Some? && NoRepeats(out)
    requires forall x :: x in out ==> x in Moved(root, Replaced(root, p, content).value)
    ensures |out| <= |p| + 1
    ensures forall x :: x in out ==> x in OnPath(Replaced(root, p, content).value, p)
  {
    var goal := Replaced(root, p, content).value;
    ReplacedMoves(root, p, content);
    OnPathSize(goal, p);
    DistinctFit(out, OnPath(goal, p));
  }
}
