// The builder's nodes as objects: found by walking down a path, and changed
// where they stand. Every operation comes to what Nodes says of it on values.

module InPlace {
  import opened Basics
  import opened Git
  import opened Nodes
  import opened Places

  class TreeNode {
    // The children's names, in the order they arrived.
    var order: seq<string>
    var children: map<string, TreeNode>
    var entries: Option<seq<Entry>>
    var blob: Hash
    var tree: Hash

    constructor (blob: Hash)
      ensures order == [] && children == map[] && entries == None && this.blob == blob && tree == Zero
    {
      this.order, this.children, this.entries, this.blob, this.tree := [], map[], None, blob, Zero;
    }
  }

  // What a node holds of its own.
  datatype Own = Own(order: seq<string>, children: map<string, TreeNode>, entries: Option<seq<Entry>>, blob: Hash, tree: Hash)

  ghost function OwnOf(n: TreeNode): Own
    reads n
  {
    Own(n.order, n.children, n.entries, n.blob, n.tree)
  }

  // What each node is as a value.
  type Models = map<TreeNode, Node>

  // A node's own part, with its children as values.
  datatype Shape = Shape(order: seq<string>, entries: Option<seq<Entry>>, blob: Hash, tree: Hash, kids: map<string, Node>)

  ghost function ShapeOf(o: Own, models: Models): Shape
    requires o.children.Values <= models.Keys
  {
    Shape(o.order, o.entries, o.blob, o.tree, KidsOf(o.children, models))
  }

  ghost function KidsOf(children: map<string, TreeNode>, models: Models): map<string, Node>
    requires children.Values <= models.Keys
  {
    map name | name in children :: models[children[name]]
  }

  // The value has this shape, but may be behind about one child; and the order
  // names each child once.
  ghost predicate Fits(m: Node, s: Shape, behind: Option<string>) {
    && m.entries == s.entries && m.blob == s.blob && m.tree == s.tree
    && Named(s.order, s.kids.Keys) && KidsFit(m.kids, s.order, s.kids, behind)
  }

  ghost predicate Named(order: seq<string>, names: set<string>) {
    && (forall name :: name in names <==> name in order)
    && forall i, j :: 0 <= i < j < |order| ==> order[i] != order[j]
  }

  ghost predicate KidsFit(ks: seq<Kid>, order: seq<string>, kids: map<string, Node>, behind: Option<string>) {
    && |ks| == |order|
    && forall i :: 0 <= i < |order| ==>
         && ks[i].name == order[i] && order[i] in kids
         && (behind != Some(order[i]) ==> ks[i].node == kids[order[i]])
  }

  // A child is found in the value where it is found in the map.
  lemma ChildAt(m: Node, s: Shape, behind: Option<string>, name: string)
    requires Fits(m, s, behind)
    ensures Has(m, name) <==> name in s.kids
    ensures name in s.kids && behind != Some(name) ==> KidAt(m, name) == s.kids[name]
    ensures name in s.kids ==> s.order[Slot(m.kids, name)] == name
  {
    HasName(m, name);
    if name in s.kids {
      var i :| 0 <= i < |s.order| && s.order[i] == name;
      SlotOf(m.kids, i);
    }
  }

  // Told about that child, the value catches up.
  lemma Swapped(m: Node, s: Shape, name: string)
    requires Fits(m, s, Some(name)) && name in s.kids
    ensures Has(m, name) && Fits(Swap(m, name, s.kids[name]), s, None)
  {
    ChildAt(m, s, Some(name), name);
  }

  // ----- Sets of nodes -----

  // Where a node hangs, by its parent and its name there: None is nowhere.
  type Link = Option<(TreeNode, string)>
  type Links = map<TreeNode, Link>

  // What each of some nodes holds.
  type Owns = map<TreeNode, Own>

  ghost function OwnsOf(nodes: set<TreeNode>): Owns
    reads nodes
  {
    map n | n in nodes :: OwnOf(n)
  }

  /** A tree as a whole: what its nodes hold, where each hangs, and what each is
      as a value. */
  datatype Ledger = Ledger(owns: Owns, links: Links, models: Models)

  // The children are all among the nodes, and hang where they are found.
  ghost predicate Holds(n: TreeNode, children: map<string, TreeNode>, nodes: set<TreeNode>, links: Links) {
    forall name :: name in children ==>
      && children[name] in nodes && children[name] != n
      && children[name] in links && links[children[name]] == Some((n, name))
  }

  /** Every child hangs where it is found, so nowhere else; the root hangs
      nowhere. */
  ghost predicate Hung(l: Ledger, root: TreeNode) {
    && root in l.owns && l.models.Keys == l.links.Keys == l.owns.Keys && l.links[root] == None
    && forall n :: n in l.owns ==> Holds(n, l.owns[n].children, l.owns.Keys, l.links)
  }

  function Lag(gap: Link, n: TreeNode): Option<string> {
    if gap.Some? && gap.value.0 == n then Some(gap.value.1) else None
  }

  ghost predicate FitsAt(m: Node, o: Own, models: Models, behind: Option<string>) {
    o.children.Values <= models.Keys && Fits(m, ShapeOf(o, models), behind)
  }

  // Every value fits, but one that may be behind about one child.
  ghost predicate AllFit(owns: Owns, models: Models, gap: Link) {
    forall n :: n in owns ==> n in models && FitsAt(models[n], owns[n], models, Lag(gap, n))
  }

  // Every value fits but this node's, which may say anything.
  ghost predicate AllFitBut(owns: Owns, models: Models, n: TreeNode) {
    forall k :: k in owns && k != n ==> k in models && FitsAt(models[k], owns[k], models, None)
  }

  /** A root, what hangs from it, and what all of that is as values. */
  ghost predicate Tied(l: Ledger, root: TreeNode) {
    Hung(l, root) && AllFit(l.owns, l.models, None)
  }

  // A node's value is behind m: it is the only one that is behind.
  ghost predicate Pending(owns: Owns, models: Models, n: TreeNode, m: Node) {
    n in owns && n in models && AllFitBut(owns, models, n) && FitsAt(m, owns[n], models, None)
  }

  // A new value for n shows in the shape of what n hangs at, and only there.
  lemma FitsStill(models: Models, n: TreeNode, m: Node, up: Link, k: TreeNode, v: Node, o: Own)
    requires k != n && FitsAt(v, o, models, None)
    requires forall name :: name in o.children && o.children[name] == n ==> up == Some((k, name))
    ensures FitsAt(v, o, models[n := m], Lag(up, k))
  {
    var now := models[n := m];
    if Lag(up, k) == None {
      assert forall name :: name in o.children ==> o.children[name] != n;
      assert KidsOf(o.children, now) == KidsOf(o.children, models);
    } else {
      assert forall name :: name in o.children && name != up.value.1 ==> o.children[name] != n;
    }
  }

  // n's own shape does not show it.
  lemma FitsSelf(models: Models, n: TreeNode, m: Node, o: Own)
    requires n in models && FitsAt(m, o, models, None) && forall name :: name in o.children ==> o.children[name] != n
    ensures FitsAt(m, o, models[n := m], None)
  {
    assert KidsOf(o.children, models[n := m]) == KidsOf(o.children, models);
  }

  lemma CatchUpAt(l: Ledger, models: Models, n: TreeNode, m: Node, k: TreeNode)
    requires n in models && k in l.owns && Holds(k, l.owns[k].children, l.owns.Keys, l.links) && n in l.links
    requires k in models && FitsAt(if k == n then m else models[k], l.owns[k], models, None)
    ensures FitsAt(models[n := m][k], l.owns[k], models[n := m], if k == n then None else Lag(l.links[n], k))
  {
    if k == n { FitsSelf(models, n, m, l.owns[n]); } else { FitsStill(models, n, m, l.links[n], k, models[k], l.owns[k]); }
  }

  // The gap moves up: with a node's value caught up, what it hangs at is behind.
  lemma CatchUp(l: Ledger, root: TreeNode, models: Models, n: TreeNode, m: Node)
    requires Hung(l, root) && Pending(l.owns, models, n, m) && Lag(l.links[n], n) == None
    ensures AllFit(l.owns, models[n := m], l.links[n])
  {
    forall k | k in l.owns ensures k in models && FitsAt(models[n := m][k], l.owns[k], models[n := m], Lag(l.links[n], k)) {
      CatchUpAt(l, models, n, m, k);
    }
  }

  // ----- Chains -----

  /** From some node down, one child to the next. */
  predicate IsChain(owns: Owns, chain: seq<TreeNode>, names: Path) {
    && |chain| == |names| + 1 && (forall i :: 0 <= i < |chain| ==> chain[i] in owns)
    && forall i :: 0 <= i < |names| ==>
         names[i] in owns[chain[i]].children && owns[chain[i]].children[names[i]] == chain[i + 1]
  }

  // From the root down, no chain meets a node twice.
  lemma {:induction false} ChainDistinct(l: Ledger, chain: seq<TreeNode>, names: Path, i: nat, j: nat)
    requires IsChain(l.owns, chain, names) && Hung(l, chain[0])
    requires i < j < |chain|
    ensures chain[i] != chain[j]
    decreases i
  {
    assert l.links[chain[j]] == Some((chain[j - 1], names[j - 1]));
    if i > 0 && chain[i] == chain[j] {
      assert l.links[chain[i]] == Some((chain[i - 1], names[i - 1]));
      ChainDistinct(l, chain, names, i - 1, j - 1);
    }
  }

  lemma ChainLonger(owns: Owns, chain: seq<TreeNode>, path: Path, i: nat, n: TreeNode)
    requires i < |path| && IsChain(owns, chain, path[..i]) && n in owns
    requires path[i] in owns[chain[i]].children && owns[chain[i]].children[path[i]] == n
    ensures IsChain(owns, chain + [n], path[..i + 1])
  {
    assert path[..i + 1] == path[..i] + [path[i]];
  }

  lemma ChainShorter(owns: Owns, chain: seq<TreeNode>, names: Path)
    requires names != [] && IsChain(owns, chain, names)
    ensures IsChain(owns, chain[..|names|], names[..|names| - 1])
  {
  }

  // The value a path leads to, leaves or not.
  ghost predicate Led(n: Node, p: Path)
    decreases |p|
  {
    p != [] ==> Has(n, p[0]) && Led(KidAt(n, p[0]), p[1..])
  }

  ghost function Down(n: Node, p: Path): Node
    requires Led(n, p)
    decreases |p|
  {
    if p == [] then n else Down(KidAt(n, p[0]), p[1..])
  }

  // The value with another at the end of a path.
  ghost function Plugged(n: Node, p: Path, m: Node): Node
    requires Led(n, p)
    decreases |p|
  {
    if p == [] then m else Swap(n, p[0], Plugged(KidAt(n, p[0]), p[1..], m))
  }

  lemma {:induction false} LedLast(n: Node, p: Path, name: string, m: Node)
    requires Led(n, p) && Has(Down(n, p), name)
    ensures Led(n, p + [name]) && Down(n, p + [name]) == KidAt(Down(n, p), name)
    ensures Plugged(n, p + [name], m) == Plugged(n, p, Swap(Down(n, p), name, m))
    decreases |p|
  {
    if p == [] {
      assert [name][1..] == [];
    } else {
      assert (p + [name])[1..] == p[1..] + [name];
      LedLast(KidAt(n, p[0]), p[1..], name, m);
    }
  }

  // Each value has the next for a child.
  ghost predicate Steps(models: Models, chain: seq<TreeNode>, names: Path) {
    && |chain| == |names| + 1 && (forall i :: 0 <= i < |chain| ==> chain[i] in models)
    && forall i :: 0 <= i < |names| ==>
         Has(models[chain[i]], names[i]) && KidAt(models[chain[i]], names[i]) == models[chain[i + 1]]
  }

  lemma ChainSteps(owns: Owns, models: Models, chain: seq<TreeNode>, names: Path)
    requires AllFit(owns, models, None) && IsChain(owns, chain, names)
    ensures Steps(models, chain, names)
  {
    forall i | 0 <= i < |names|
      ensures Has(models[chain[i]], names[i]) && KidAt(models[chain[i]], names[i]) == models[chain[i + 1]]
    {
      ChildAt(models[chain[i]], ShapeOf(owns[chain[i]], models), None, names[i]);
    }
  }

  // The value of the last node of a chain is what the first one's leads to.
  lemma {:induction false} ChainDown(models: Models, chain: seq<TreeNode>, names: Path, i: nat)
    requires Steps(models, chain, names) && i <= |names|
    ensures Led(models[chain[0]], names[..i]) && models[chain[i]] == Down(models[chain[0]], names[..i])
  {
    if i > 0 {
      ChainDown(models, chain, names, i - 1);
      LedLast(models[chain[0]], names[..i - 1], names[i - 1], models[chain[i]]);
      assert names[..i] == names[..i - 1] + [names[i - 1]];
    }
  }

  // The values along a chain are those n leads to.
  ghost predicate Spine(models: Models, chain: seq<TreeNode>, names: Path, n: Node) {
    |chain| == |names| + 1 &&
    forall i :: 0 <= i < |chain| ==>
      chain[i] in models && Led(n, names[..i]) && models[chain[i]] == Down(n, names[..i])
  }

  lemma ChainSpine(owns: Owns, models: Models, chain: seq<TreeNode>, names: Path)
    requires AllFit(owns, models, None) && IsChain(owns, chain, names)
    ensures chain[0] in models && Spine(models, chain, names, models[chain[0]])
  {
    ChainSteps(owns, models, chain, names);
    forall i | 0 <= i < |chain|
      ensures Led(models[chain[0]], names[..i]) && models[chain[i]] == Down(models[chain[0]], names[..i])
    {
      ChainDown(models, chain, names, i);
    }
  }

  // One link up: the value above takes the new one in.
  lemma LinkUp(l: Ledger, root: TreeNode, models: Models, last: TreeNode, above: TreeNode, name: string, m: Node)
    requires Hung(l, root) && Pending(l.owns, models, last, m)
    requires above in l.owns && name in l.owns[above].children && l.owns[above].children[name] == last
    ensures above in models && Has(models[above], name) && KidAt(models[above], name) == models[last]
    ensures Pending(l.owns, models[last := m], above, Swap(models[above], name, m))
  {
    var now, own := models[last := m], l.owns[above];
    assert Holds(above, own.children, l.owns.Keys, l.links);
    CatchUp(l, root, models, last, m);
    assert l.links[last] == Some((above, name)) && FitsAt(models[above], own, models, None);
    ChildAt(models[above], ShapeOf(own, models), None, name);
    Swapped(now[above], ShapeOf(own, now), name);
    AllButAbove(l.owns, now, above, name);
  }

  lemma AllButAbove(owns: Owns, models: Models, above: TreeNode, name: string)
    requires AllFit(owns, models, Some((above, name)))
    ensures AllFitBut(owns, models, above)
  {
    forall k | k in owns && k != above ensures k in models && FitsAt(models[k], owns[k], models, None) {
      assert FitsAt(models[k], owns[k], models, Lag(Some((above, name)), k));
    }
  }

  lemma SpineShorter(models: Models, chain: seq<TreeNode>, names: Path, n: Node, m: Node)
    requires names != [] && Spine(models, chain, names, n)
    requires forall i :: 0 <= i < |names| ==> chain[i] != chain[|names|]
    ensures Spine(models[chain[|names|] := m], chain[..|names|], names[..|names| - 1], n)
  {
    var k := |names| - 1;
    forall i | 0 <= i <= k ensures names[..k][..i] == names[..i] {
    }
  }

  lemma PluggedHigher(n: Node, names: Path, m: Node)
    requires names != [] && Led(n, names[..|names| - 1]) && Has(Down(n, names[..|names| - 1]), names[|names| - 1])
    ensures var k := |names| - 1;
            Led(n, names) && Plugged(n, names, m) == Plugged(n, names[..k], Swap(Down(n, names[..k]), names[k], m))
  {
    var k := |names| - 1;
    LedLast(n, names[..k], names[k], m);
    assert names == names[..k] + [names[k]];
  }

  // m is the value to be of the last node of a chain, from the root whose value
  // was n.
  ghost predicate Rising(l: Ledger, models: Models, chain: seq<TreeNode>, names: Path, n: Node, m: Node) {
    && IsChain(l.owns, chain, names) && Hung(l, chain[0])
    && Spine(models, chain, names, n) && Pending(l.owns, models, chain[|names|], m)
  }

  lemma LinkAbove(l: Ledger, models: Models, chain: seq<TreeNode>, names: Path, n: Node, m: Node)
    requires names != [] && Rising(l, models, chain, names, n, m)
    ensures var k := |names| - 1;
            var above := chain[k];
            && above in models && Has(models[above], names[k])
            && Led(n, names) && Led(n, names[..k])
            && Plugged(n, names, m) == Plugged(n, names[..k], Swap(models[above], names[k], m))
            && Rising(l, models[chain[k + 1] := m], chain[..k + 1], names[..k], n, Swap(models[above], names[k], m))
  {
    var k := |names| - 1;
    forall i | 0 <= i <= k ensures chain[i] != chain[k + 1] { ChainDistinct(l, chain, names, i, k + 1); }
    LinkUp(l, chain[0], models, chain[k + 1], chain[k], names[k], m);
    SpineShorter(models, chain, names, n, m);
    ChainShorter(l.owns, chain, names);
    assert Led(n, names[..k]) && models[chain[k]] == Down(n, names[..k]);
    PluggedHigher(n, names, m);
  }

  lemma LiftRoot(l: Ledger, models: Models, chain: seq<TreeNode>, n: Node, m: Node)
    requires Rising(l, models, chain, [], n, m)
    ensures AllFit(l.owns, models[chain[0] := m], None)
  {
    CatchUp(l, chain[0], models, chain[0], m);
  }

  // With one node's value to be caught up at the end of a chain, every value
  // above it is caught up in turn.
  lemma {:induction false} Lift(l: Ledger, models: Models, chain: seq<TreeNode>, names: Path, n: Node, m: Node)
    returns (now: Models)
    requires Rising(l, models, chain, names, n, m)
    ensures Led(n, names) && now.Keys == models.Keys && AllFit(l.owns, now, None)
    ensures now[chain[0]] == Plugged(n, names, m)
    decreases |names|
  {
    if names == [] {
      LiftRoot(l, models, chain, n, m);
      now := models[chain[0] := m];
    } else {
      var k := |names| - 1;
      LinkAbove(l, models, chain, names, n, m);
      now := Lift(l, models[chain[k + 1] := m], chain[..k + 1], names[..k], n, Swap(models[chain[k]], names[k], m));
    }
  }

  // ----- What a change of one node comes to -----

  // A change at a path is a change of the node above it, and of what leads
  // there.
  lemma {:induction false} EditedAlong(n: Node, names: Path, last: string, e: Edit)
    requires Led(n, names)
    ensures Edited(n, names + [last], e) ==
            match Edited(Down(n, names), [last], e)
            case None => None
            case Some(m) => Some(Plugged(n, names, m))
    decreases |names|
  {
    if names == [] {
      assert names + [last] == [last];
    } else {
      var p, kid := names + [last], KidAt(n, names[0]);
      assert p[1..] == names[1..] + [last] && p[0] == names[0] && |p| > 1;
      EditedAlong(kid, names[1..], last, e);
      assert Down(n, names) == Down(kid, names[1..]);
      var at := Edited(Down(n, names), [last], e);
      if at.Some? {
        assert Edited(kid, p[1..], e) == Some(Plugged(kid, names[1..], at.value));
        assert Plugged(n, names, at.value) == Swap(n, names[0], Plugged(kid, names[1..], at.value));
      } else {
        assert Edited(kid, p[1..], e) == None;
      }
    }
  }

  // Where the way breaks off, only a removal goes through, and changes nothing.
  lemma {:induction false} EditedBroken(n: Node, names: Path, rest: Path, e: Edit)
    requires Led(n, names) && |rest| > 1 && !Has(Down(n, names), rest[0])
    ensures Edited(n, names + rest, e) == if e.Remove? then Some(n) else None
    decreases |names|
  {
    if names == [] {
      assert names + rest == rest;
    } else {
      assert (names + rest)[1..] == names[1..] + rest;
      EditedBroken(KidAt(n, names[0]), names[1..], rest, e);
      assert Swap(n, names[0], KidAt(n, names[0])).kids == n.kids;
    }
  }

  function Removed(names: seq<string>, i: nat): seq<string>
    requires i < |names|
  {
    names[..i] + names[i + 1..]
  }

  lemma RemovedNamed(order: seq<string>, names: set<string>, i: nat)
    requires Named(order, names) && i < |order|
    ensures Named(Removed(order, i), names - {order[i]})
  {
    var rest := Removed(order, i);
    assert forall j :: 0 <= j < |rest| ==> rest[j] == order[if j < i then j else j + 1];
    forall name | name in order && name != order[i] ensures name in rest {
      var j :| 0 <= j < |order| && order[j] == name;
      assert rest[if j < i then j else j - 1] == name;
    }
  }

  lemma RemovedFit(ks: seq<Kid>, order: seq<string>, kids: map<string, Node>, i: nat)
    requires KidsFit(ks, order, kids, None) && Named(order, kids.Keys) && i < |order|
    ensures KidsFit(ks[..i] + ks[i + 1..], Removed(order, i), kids - {order[i]}, None)
  {
    var rest, less, fewer := Removed(order, i), ks[..i] + ks[i + 1..], kids - {order[i]};
    forall j | 0 <= j < |rest| ensures less[j].name == rest[j] && rest[j] in fewer && less[j].node == fewer[rest[j]] {
      var at := if j < i then j else j + 1;
      assert rest[j] == order[at] && less[j] == ks[at];
    }
  }

  // A child gone from the map and the order.
  lemma Dropped(m: Node, s: Shape, name: string)
    requires Fits(m, s, None) && name in s.kids
    ensures Has(m, name)
    ensures var order := Removed(s.order, Slot(m.kids, name));
            Fits(Drop(m, name), s.(order := order, entries := None, kids := s.kids - {name}), None)
  {
    ChildAt(m, s, None, name);
    var i := Slot(m.kids, name);
    RemovedNamed(s.order, s.kids.Keys, i);
    RemovedFit(m.kids, s.order, s.kids, i);
    assert (s.kids - {name}).Keys == s.kids.Keys - {name};
  }

  // A child added at the end.
  lemma Added(m: Node, s: Shape, name: string, kid: Node)
    requires Fits(m, s, None) && name !in s.kids
    ensures !Has(m, name)
    ensures Fits(Put(m, name, kid), s.(order := s.order + [name], entries := None, kids := s.kids[name := kid]), None)
  {
    ChildAt(m, s, None, name);
  }

  // Another child in one's place.
  lemma Replaced(m: Node, s: Shape, name: string, kid: Node)
    requires Fits(m, s, None) && name in s.kids
    ensures Has(m, name) && Fits(Swap(m, name, kid), s.(kids := s.kids[name := kid]), None)
  {
    ChildAt(m, s, None, name);
  }

  // Putting back what is there changes nothing.
  lemma {:induction false} PluggedSelf(n: Node, p: Path)
    requires Led(n, p)
    ensures Plugged(n, p, Down(n, p)) == n
    decreases |p|
  {
    if p != [] {
      PluggedSelf(KidAt(n, p[0]), p[1..]);
      assert Swap(n, p[0], KidAt(n, p[0])).kids == n.kids;
    }
  }

  // ----- Changing one node -----

  lemma KidsLess(children: map<string, TreeNode>, models: Models, name: string)
    requires children.Values <= models.Keys
    ensures (children - {name}).Values <= models.Keys
    ensures KidsOf(children - {name}, models) == KidsOf(children, models) - {name}
  {
    forall n | n in (children - {name}).Values ensures n in children.Values {
      var x :| x in children && x != name && children[x] == n;
    }
  }

  lemma KidsMore(children: map<string, TreeNode>, models: Models, values: Models, name: string, child: TreeNode)
    requires children.Values <= models.Keys && models.Keys !! values.Keys && child in values
    ensures children[name := child].Values <= (models + values).Keys
    ensures KidsOf(children[name := child], models + values) == KidsOf(children, models)[name := values[child]]
  {
    var now := children[name := child];
    forall n | n in now.Values ensures n in children.Values || n == child {
      var x :| x in now && now[x] == n;
      assert x != name ==> children[x] == n;
    }
  }

  // The name's place in the order is its place in the value.
  lemma SlotIs(m: Node, s: Shape, name: string, i: nat)
    requires Fits(m, s, None) && i < |s.order| && s.order[i] == name
    ensures Slot(m.kids, name) == i
  {
    SlotOf(m.kids, i);
  }

  // A node without one of its children.
  function CutOwn(o: Own, i: nat): Own
    requires i < |o.order|
  {
    o.(order := Removed(o.order, i), children := o.children - {o.order[i]}, entries := None)
  }

  // A node with another child under a name, last in order if it is a new one.
  function HookedOwn(o: Own, name: string, child: TreeNode): Own {
    if name in o.children then o.(children := o.children[name := child])
    else o.(order := o.order + [name], children := o.children[name := child], entries := None)
  }

  lemma CutFits(m: Node, o: Own, models: Models, i: nat)
    requires FitsAt(m, o, models, None) && i < |o.order|
    ensures Has(m, o.order[i]) && FitsAt(Drop(m, o.order[i]), CutOwn(o, i), models, None)
  {
    Dropped(m, ShapeOf(o, models), o.order[i]);
    SlotIs(m, ShapeOf(o, models), o.order[i], i);
    KidsLess(o.children, models, o.order[i]);
  }

  lemma HookedFits(m: Node, o: Own, models: Models, more: Models, name: string, child: TreeNode)
    requires FitsAt(m, o, models, None) && models.Keys !! more.Keys && child in more
    ensures FitsAt(Set(m, name, more[child]), HookedOwn(o, name, child), models + more, None)
  {
    KidsMore(o.children, models, more, name, child);
    if name in o.children {
      Replaced(m, ShapeOf(o, models), name, more[child]);
    } else {
      Added(m, ShapeOf(o, models), name, more[child]);
    }
  }

  method Index(n: TreeNode, name: string) returns (i: nat)
    requires name in n.order
    ensures i < |n.order| && n.order[i] == name
  {
    i := 0;
    while n.order[i] != name
      invariant i < |n.order| && forall j :: 0 <= j < i ==> n.order[j] != name
      decreases |n.order| - i
    {
      i := i + 1;
    }
  }

  /** Deletes a child: its key, its place in the order, and the list that named
      it. */
  method Cut(n: TreeNode, name: string) returns (i: nat)
    requires name in n.order
    modifies n
    ensures i < |old(OwnOf(n)).order| && old(OwnOf(n)).order[i] == name && OwnOf(n) == CutOwn(old(OwnOf(n)), i)
  {
    i := Index(n, name);
    n.children := n.children - {name};
    n.entries := None;
    n.order := n.order[..i] + n.order[i + 1..];
  }

  /** A child under a name, in place of one that is there or last in order. */
  method Hook(n: TreeNode, name: string, child: TreeNode)
    modifies n
    ensures OwnOf(n) == HookedOwn(old(OwnOf(n)), name, child)
  {
    if name !in n.children {
      n.order := n.order + [name];
      n.entries := None;
    }
    n.children := n.children[name := child];
  }

  // One node's own part changed.
  function Changed(l: Ledger, n: TreeNode, o: Own): Ledger {
    l.(owns := l.owns[n := o])
  }

  lemma ChangedHung(l: Ledger, root: TreeNode, n: TreeNode, o: Own)
    requires Hung(l, root) && n in l.owns && Holds(n, o.children, l.owns.Keys, l.links)
    ensures Hung(Changed(l, n, o), root)
  {
    assert Changed(l, n, o).owns.Keys == l.owns.Keys;
  }

  lemma ChangedPending(l: Ledger, n: TreeNode, o: Own, m: Node)
    requires AllFit(l.owns, l.models, None) && n in l.owns && FitsAt(m, o, l.models, None)
    ensures Pending(Changed(l, n, o).owns, l.models, n, m)
  {
  }

  // What a child deleted leaves to be caught up with.
  lemma CutPending(l: Ledger, root: TreeNode, n: TreeNode, i: nat)
    requires Tied(l, root) && n in l.owns && i < |l.owns[n].order|
    ensures var now, name := Changed(l, n, CutOwn(l.owns[n], i)), l.owns[n].order[i];
            Hung(now, root) && Has(l.models[n], name) && Pending(now.owns, now.models, n, Drop(l.models[n], name))
  {
    assert Holds(n, l.owns[n].children, l.owns.Keys, l.links);
    CutFits(l.models[n], l.owns[n], l.models, i);
    ChangedHung(l, root, n, CutOwn(l.owns[n], i));
    ChangedPending(l, n, CutOwn(l.owns[n], i), Drop(l.models[n], l.owns[n].order[i]));
  }

  // Another tree's ledger taken over, its root hung under a name.
  function Merged(l: Ledger, other: Ledger, child: TreeNode, n: TreeNode, name: string): Ledger
    requires n in l.owns
  {
    Ledger(l.owns[n := HookedOwn(l.owns[n], name, child)] + other.owns, l.links + other.links[child := Some((n, name))],
           l.models + other.models)
  }

  lemma HoldsStill(k: TreeNode, children: map<string, TreeNode>, l: Ledger, more: Ledger)
    requires Holds(k, children, l.owns.Keys, l.links) && l.owns.Keys <= more.owns.Keys
    requires forall x :: x in l.owns && x in l.links && l.links[x].Some? ==> x in more.links && more.links[x] == l.links[x]
    ensures Holds(k, children, more.owns.Keys, more.links)
  {
  }

  lemma MergedHolds(l: Ledger, other: Ledger, child: TreeNode, n: TreeNode, name: string, k: TreeNode)
    requires l.links.Keys == l.owns.Keys && other.links.Keys == other.owns.Keys && l.owns.Keys !! other.owns.Keys
    requires n in l.owns && child in other.owns && other.links[child] == None
    requires if k in other.owns then Holds(k, other.owns[k].children, other.owns.Keys, other.links)
             else k in l.owns && Holds(k, l.owns[k].children, l.owns.Keys, l.links)
    ensures var all := Merged(l, other, child, n, name);
            k in all.owns && Holds(k, all.owns[k].children, all.owns.Keys, all.links)
  {
    var all := Merged(l, other, child, n, name);
    if k in other.owns {
      HoldsStill(k, other.owns[k].children, other, all);
    } else {
      HoldsStill(k, l.owns[k].children, l, all);
    }
  }

  lemma MergedHung(l: Ledger, root: TreeNode, other: Ledger, child: TreeNode, n: TreeNode, name: string)
    requires Hung(l, root) && Hung(other, child) && l.owns.Keys !! other.owns.Keys && n in l.owns
    ensures Hung(Merged(l, other, child, n, name), root)
  {
    var all := Merged(l, other, child, n, name);
    forall k | k in all.owns ensures Holds(k, all.owns[k].children, all.owns.Keys, all.links) {
      MergedHolds(l, other, child, n, name, k);
    }
  }

  lemma FitsMore(m: Node, o: Own, models: Models, more: Models)
    requires FitsAt(m, o, models, None) && models.Keys !! more.Keys
    ensures FitsAt(m, o, models + more, None) && FitsAt(m, o, more + models, None)
  {
    assert KidsOf(o.children, models + more) == KidsOf(o.children, models);
    assert KidsOf(o.children, more + models) == KidsOf(o.children, models);
  }

  lemma MergedFit(l: Ledger, other: Ledger, child: TreeNode, n: TreeNode, name: string, k: TreeNode)
    requires l.models.Keys == l.owns.Keys && other.models.Keys == other.owns.Keys && l.owns.Keys !! other.owns.Keys
    requires n in l.owns && k != n
    requires if k in other.owns then FitsAt(other.models[k], other.owns[k], other.models, None)
             else k in l.owns && FitsAt(l.models[k], l.owns[k], l.models, None)
    ensures var all := Merged(l, other, child, n, name);
            k in all.models && k in all.owns && FitsAt(all.models[k], all.owns[k], all.models, None)
  {
    if k in other.owns {
      FitsMore(other.models[k], other.owns[k], other.models, l.models);
    } else {
      FitsMore(l.models[k], l.owns[k], l.models, other.models);
    }
  }

  lemma MergedFits(l: Ledger, root: TreeNode, other: Ledger, child: TreeNode, n: TreeNode, name: string)
    requires Tied(l, root) && Tied(other, child) && l.owns.Keys !! other.owns.Keys && n in l.owns
    ensures var all := Merged(l, other, child, n, name);
            Pending(all.owns, all.models, n, Set(l.models[n], name, other.models[child]))
  {
    var all := Merged(l, other, child, n, name);
    forall k | k in all.owns && k != n ensures k in all.models && FitsAt(all.models[k], all.owns[k], all.models, None) {
      MergedFit(l, other, child, n, name, k);
    }
    HookedFits(l.models[n], l.owns[n], l.models, other.models, name, child);
  }

  // ----- What a change along a chain comes to -----

  // The nodes on the way to a path's parent, as far as they are there.
  ghost predicate LeadsTo(l: Ledger, chain: seq<TreeNode>, path: Path) {
    && 1 <= |chain| <= |path| && IsChain(l.owns, chain, path[..|chain| - 1])
    && (|chain| < |path| ==> path[|chain| - 1] !in l.owns[chain[|chain| - 1]].children)
  }

  lemma ChainEnd(l: Ledger, chain: seq<TreeNode>, path: Path)
    requires LeadsTo(l, chain, path) && Tied(l, chain[0])
    ensures var n, last := l.models[chain[0]], chain[|chain| - 1];
            && Spine(l.models, chain, path[..|chain| - 1], n) && Led(n, path[..|chain| - 1])
            && l.models[last] == Down(n, path[..|chain| - 1])
            && (Has(l.models[last], path[|chain| - 1]) <==> path[|chain| - 1] in l.owns[last].children)
  {
    var names, last := path[..|chain| - 1], chain[|chain| - 1];
    ChainSpine(l.owns, l.models, chain, names);
    assert names[..|names|] == names;
    ChildAt(l.models[last], ShapeOf(l.owns[last], l.models), None, path[|chain| - 1]);
  }

  lemma EditedOff(n: Node, path: Path, k: nat, e: Edit)
    requires k + 1 < |path| && Led(n, path[..k]) && !Has(Down(n, path[..k]), path[k])
    ensures Edited(n, path, e) == if e.Remove? then Some(n) else None
  {
    EditedBroken(n, path[..k], path[k..], e);
    assert path == path[..k] + path[k..];
  }

  // Where the way to the parent breaks off.
  lemma BreaksOff(l: Ledger, chain: seq<TreeNode>, path: Path, e: Edit)
    requires LeadsTo(l, chain, path) && Tied(l, chain[0]) && |chain| < |path|
    ensures Edited(l.models[chain[0]], path, e) == if e.Remove? then Some(l.models[chain[0]]) else None
  {
    ChainEnd(l, chain, path);
    EditedOff(l.models[chain[0]], path, |chain| - 1, e);
  }

  // Where there is nothing to remove.
  lemma NothingThere(l: Ledger, chain: seq<TreeNode>, path: Path)
    requires LeadsTo(l, chain, path) && Tied(l, chain[0]) && |chain| == |path|
    requires path[|path| - 1] !in l.owns[chain[|path| - 1]].children
    ensures Edited(l.models[chain[0]], path, Remove) == Some(l.models[chain[0]])
  {
    ChainEnd(l, chain, path);
    RemoveNothing(l.models[chain[0]], path);
  }

  lemma RemoveNothing(n: Node, path: Path)
    requires path != [] && Led(n, path[..|path| - 1]) && !Has(Down(n, path[..|path| - 1]), path[|path| - 1])
    ensures Edited(n, path, Remove) == Some(n)
  {
    var k := |path| - 1;
    EditedAlong(n, path[..k], path[k], Remove);
    PluggedSelf(n, path[..k]);
    assert path == path[..k] + [path[k]];
  }

  // The chain still leads to a node whose own part is another.
  lemma ChainStays(l: Ledger, chain: seq<TreeNode>, names: Path, o: Own)
    requires IsChain(l.owns, chain, names) && Hung(l, chain[0])
    ensures IsChain(l.owns[chain[|names|] := o], chain, names)
  {
    forall i | 0 <= i < |names| ensures chain[i] != chain[|names|] { ChainDistinct(l, chain, names, i, |names|); }
  }

  lemma ChainAmongMore(owns: Owns, more: Owns, chain: seq<TreeNode>, names: Path)
    requires IsChain(owns, chain, names) && owns.Keys <= more.Keys && forall n :: n in owns ==> more[n] == owns[n]
    ensures IsChain(more, chain, names)
  {
  }

  lemma SpineSame(models: Models, more: Models, chain: seq<TreeNode>, names: Path, n: Node)
    requires Spine(models, chain, names, n) && forall k :: k in chain ==> k in more && k in models && more[k] == models[k]
    ensures Spine(more, chain, names, n)
  {
    forall i | 0 <= i < |chain| ensures chain[i] in more && more[chain[i]] == models[chain[i]] {
      assert chain[i] in chain;
    }
  }

  lemma EditedWith(n: Node, path: Path, e: Edit, m: Node)
    requires path != [] && Led(n, path[..|path| - 1])
    requires Edited(Down(n, path[..|path| - 1]), [path[|path| - 1]], e) == Some(m)
    ensures Edited(n, path, e) == Some(Plugged(n, path[..|path| - 1], m))
  {
    var k := |path| - 1;
    EditedAlong(n, path[..k], path[k], e);
    assert path == path[..k] + [path[k]];
  }

  // With the parent changed and its value to be m, the tree is what the edit
  // makes of it.
  lemma ChangeLifts(after: Ledger, chain: seq<TreeNode>, path: Path, n: Node, e: Edit, m: Node) returns (now: Models)
    requires path != [] && Rising(after, after.models, chain, path[..|path| - 1], n, m)
    requires Led(n, path[..|path| - 1]) && Edited(Down(n, path[..|path| - 1]), [path[|path| - 1]], e) == Some(m)
    ensures Tied(after.(models := now), chain[0]) && Edited(n, path, e) == Some(now[chain[0]])
  {
    EditedWith(n, path, e, m);
    now := Lift(after, after.models, chain, path[..|path| - 1], n, m);
    StaysHung(after, chain[0], now);
  }

  // Where things hang does not depend on what they are as values.
  lemma StaysHung(l: Ledger, root: TreeNode, now: Models)
    requires Hung(l, root) && now.Keys == l.models.Keys
    ensures Hung(l.(models := now), root)
  {
  }

  // A child of the chain's last node deleted.
  lemma CutRises(l: Ledger, chain: seq<TreeNode>, path: Path, i: nat)
    requires LeadsTo(l, chain, path) && Tied(l, chain[0]) && |chain| == |path|
    requires i < |l.owns[chain[|chain| - 1]].order| && l.owns[chain[|chain| - 1]].order[i] == path[|path| - 1]
    ensures var last, n := chain[|chain| - 1], l.models[chain[0]];
            var after := Changed(l, last, CutOwn(l.owns[last], i));
            && Has(l.models[last], path[|path| - 1])
            && Rising(after, after.models, chain, path[..|path| - 1], n, Drop(l.models[last], path[|path| - 1]))
  {
    var last := chain[|chain| - 1];
    ChainEnd(l, chain, path);
    CutPending(l, chain[0], last, i);
    ChainStays(l, chain, path[..|path| - 1], CutOwn(l.owns[last], i));
  }

  // Another tree's root hung from it.
  lemma HookRises(l: Ledger, chain: seq<TreeNode>, path: Path, other: Ledger, child: TreeNode)
    requires LeadsTo(l, chain, path) && Tied(l, chain[0]) && |chain| == |path|
    requires Tied(other, child) && l.owns.Keys !! other.owns.Keys
    ensures var last, n, name := chain[|chain| - 1], l.models[chain[0]], path[|path| - 1];
            var after := Merged(l, other, child, last, name);
            Rising(after, after.models, chain, path[..|path| - 1], n, Set(l.models[last], name, other.models[child]))
  {
    var last, name, names := chain[|chain| - 1], path[|path| - 1], path[..|path| - 1];
    var after := Merged(l, other, child, last, name);
    ChainEnd(l, chain, path);
    MergedHung(l, chain[0], other, child, last, name);
    MergedFits(l, chain[0], other, child, last, name);
    ChainStays(l, chain, names, after.owns[last]);
    ChainAmongMore(l.owns[last := after.owns[last]], after.owns, chain, names);
    SpineSame(l.models, after.models, chain, names, l.models[chain[0]]);
  }

  lemma EditedHere(m: Node, name: string, kid: Node)
    ensures Has(m, name) ==> Edited(m, [name], Remove) == Some(Drop(m, name))
    ensures Edited(m, [name], Graft(kid)) == Some(Set(m, name, kid))
  {
  }

  lemma DetachDone(l: Ledger, chain: seq<TreeNode>, path: Path, i: nat) returns (now: Models)
    requires LeadsTo(l, chain, path) && Tied(l, chain[0]) && |chain| == |path|
    requires i < |l.owns[chain[|chain| - 1]].order| && l.owns[chain[|chain| - 1]].order[i] == path[|path| - 1]
    ensures var last := chain[|chain| - 1];
            var after := Changed(l, last, CutOwn(l.owns[last], i)).(models := now);
            Tied(after, chain[0]) && Edited(l.models[chain[0]], path, Remove) == Some(after.models[chain[0]])
  {
    var last, name := chain[|chain| - 1], path[|path| - 1];
    ChainEnd(l, chain, path);
    CutRises(l, chain, path, i);
    EditedHere(l.models[last], name, Fresh);
    now := ChangeLifts(Changed(l, last, CutOwn(l.owns[last], i)), chain, path, l.models[chain[0]], Remove, Drop(l.models[last], name));
  }

  lemma AttachDone(l: Ledger, chain: seq<TreeNode>, path: Path, other: Ledger, child: TreeNode) returns (now: Models)
    requires LeadsTo(l, chain, path) && Tied(l, chain[0]) && |chain| == |path|
    requires Tied(other, child) && l.owns.Keys !! other.owns.Keys
    ensures var after := Merged(l, other, child, chain[|chain| - 1], path[|path| - 1]).(models := now);
            && Tied(after, chain[0])
            && Edited(l.models[chain[0]], path, Graft(other.models[child])) == Some(after.models[chain[0]])
  {
    var last, name, kid := chain[|chain| - 1], path[|path| - 1], other.models[child];
    ChainEnd(l, chain, path);
    HookRises(l, chain, path, other, child);
    EditedHere(l.models[last], name, kid);
    now := ChangeLifts(Merged(l, other, child, last, name), chain, path, l.models[chain[0]], Graft(kid), Set(l.models[last], name, kid));
  }

  // A leaf's new blob: the node found in full, or the way to it missing.
  lemma {:induction false} ReblobFound(n: Node, path: Path, blob: Hash)
    requires path != [] && Led(n, path)
    ensures Edited(n, path, Reblob(blob)) == Some(Plugged(n, path, Down(n, path).(blob := blob, kids := [])))
    decreases |path|
  {
    if |path| > 1 { ReblobFound(KidAt(n, path[0]), path[1..], blob); }
  }

  lemma {:induction false} ReblobMissing(n: Node, path: Path, blob: Hash)
    requires !Led(n, path)
    ensures Edited(n, path, Reblob(blob)) == None
    decreases |path|
  {
    if Has(n, path[0]) { ReblobMissing(KidAt(n, path[0]), path[1..], blob); }
  }

  function BlobOwn(o: Own, blob: Hash): Own {
    o.(order := [], children := map[], blob := blob)
  }

  lemma BlobDone(l: Ledger, chain: seq<TreeNode>, path: Path, blob: Hash) returns (now: Models)
    requires path != [] && IsChain(l.owns, chain, path) && Tied(l, chain[0])
    ensures var last := chain[|path|];
            var after := Changed(l, last, BlobOwn(l.owns[last], blob)).(models := now);
            Tied(after, chain[0]) && Edited(l.models[chain[0]], path, Reblob(blob)) == Some(after.models[chain[0]])
  {
    var last, n := chain[|path|], l.models[chain[0]];
    var own, m := BlobOwn(l.owns[last], blob), l.models[last].(blob := blob, kids := []);
    ChainSpine(l.owns, l.models, chain, path);
    assert path[..|path|] == path;
    ChangedHung(l, chain[0], last, own);
    ChangedPending(l, last, own, m);
    ChainStays(l, chain, path, own);
    ReblobFound(n, path, blob);
    now := Lift(Changed(l, last, own), l.models, chain, path, n, m);
    StaysHung(Changed(l, last, own), chain[0], now);
  }

  lemma {:induction false} LedStops(n: Node, path: Path, k: nat)
    requires k < |path| && Led(n, path[..k]) && !Has(Down(n, path[..k]), path[k])
    ensures !Led(n, path)
    decreases |path|
  {
    if k > 0 {
      assert path[..k][1..] == path[1..][..k - 1];
      LedStops(KidAt(n, path[0]), path[1..], k - 1);
    }
  }

  // A chain as long as the path ends at what the path leads to.
  lemma Arrives(l: Ledger, chain: seq<TreeNode>, path: Path)
    requires IsChain(l.owns, chain, path) && Tied(l, chain[0])
    ensures var n, last := l.models[chain[0]], chain[|path|];
            last in l.owns && Led(n, path) && l.models[last] == Down(n, path)
  {
    ChainSpine(l.owns, l.models, chain, path);
    assert path[..|path|] == path;
  }

  // A chain that cannot go on means that the path leads nowhere.
  lemma GivesOut(l: Ledger, chain: seq<TreeNode>, path: Path)
    requires 1 <= |chain| <= |path| && IsChain(l.owns, chain, path[..|chain| - 1]) && Tied(l, chain[0])
    requires path[|chain| - 1] !in l.owns[chain[|chain| - 1]].children
    ensures !Led(l.models[chain[0]], path)
  {
    ChainEnd(l, chain, path);
    LedStops(l.models[chain[0]], path, |chain| - 1);
  }

  // One node changed, and no other.
  lemma OwnsBut(before: Owns, nodes: set<TreeNode>, n: TreeNode)
    requires before.Keys == nodes && n in nodes && forall k :: k in nodes && k != n ==> OwnOf(k) == before[k]
    ensures OwnsOf(nodes) == before[n := OwnOf(n)]
  {
  }

  lemma OwnsBoth(nodes: set<TreeNode>, others: set<TreeNode>)
    ensures OwnsOf(nodes + others) == OwnsOf(nodes) + OwnsOf(others)
  {
  }

  // ----- The tree -----

  /** A root and everything that hangs from it. Nodes that hang no more are kept
      account of too. */
  class NodeTree {
    const root: TreeNode
    ghost var nodes: set<TreeNode>
    ghost var links: Links
    ghost var models: Models

    ghost function Book(): Ledger
      reads this, nodes
    {
      Ledger(OwnsOf(nodes), links, models)
    }

    ghost predicate Valid()
      reads this, nodes
    {
      Tied(Book(), root)
    }

    /** The tree as a value. */
    ghost function Value(): Node
      requires Valid()
      reads this, nodes
    {
      models[root]
    }

    constructor ()
      ensures Valid() && fresh(nodes) && Value() == Fresh
    {
      root := new TreeNode(Zero);
      new;
      nodes, links, models := {root}, map[root := None], map[root := Fresh];
    }

    /** The nodes on the way to a path's parent, as far as they are there. */
    method Chain(path: Path) returns (chain: seq<TreeNode>)
      requires Valid() && path != []
      ensures LeadsTo(Book(), chain, path) && chain[0] == root
      ensures forall n :: n in chain ==> n in nodes
    {
      chain := [root];
      var n := root;
      var i := 0;
      ghost var owns := OwnsOf(nodes);
      while i < |path| - 1 && path[i] in n.children
        invariant 0 <= i < |path| && |chain| == i + 1 && chain[0] == root && chain[i] == n
        invariant IsChain(owns, chain, path[..i]) && forall k :: k in chain ==> k in nodes
      {
        assert Holds(n, owns[n].children, nodes, links);
        n := n.children[path[i]];
        ChainLonger(owns, chain, path, i, n);
        chain := chain + [n];
        i := i + 1;
      }
    }

    /** A child of one node deleted. */
    method CutIn(n: TreeNode, name: string) returns (i: nat)
      requires n in nodes && name in n.order
      modifies n
      ensures i < |old(OwnOf(n)).order| && old(OwnOf(n)).order[i] == name
      ensures Book() == Changed(old(Book()), n, CutOwn(old(OwnOf(n)), i))
    {
      ghost var before := OwnsOf(nodes);
      i := Cut(n, name);
      OwnsBut(before, nodes, n);
    }

    /** Another node hung from one. */
    method HookOne(n: TreeNode, name: string, child: TreeNode, ghost others: set<TreeNode>)
      requires n in nodes && n !in others
      modifies n
      ensures OwnsOf(others) == old(OwnsOf(others))
      ensures Book() == Changed(old(Book()), n, HookedOwn(old(OwnOf(n)), name, child))
    {
      ghost var before := OwnsOf(nodes);
      Hook(n, name, child);
      OwnsBut(before, nodes, n);
    }

    // The account taken over of what came with it.
    ghost method TakeOver(sprout: NodeTree, link: Link)
      requires sprout != this
      modifies this`nodes, this`links, this`models
      ensures nodes == old(nodes) + sprout.nodes
      ensures Book().owns == old(Book()).owns + sprout.Book().owns
      ensures Book().links == old(Book()).links + sprout.Book().links[sprout.root := link]
      ensures Book().models == old(Book()).models + sprout.Book().models
    {
      OwnsBoth(nodes, sprout.nodes);
      nodes := nodes + sprout.nodes;
      links := links + sprout.links[sprout.root := link];
      models := models + sprout.models;
    }

    /** Another tree's root hung from one node. */
    method HookIn(n: TreeNode, name: string, sprout: NodeTree)
      requires n in nodes && n !in sprout.nodes && sprout != this
      modifies this`nodes, this`links, this`models, n
      ensures Book() == Merged(old(Book()), old(sprout.Book()), sprout.root, n, name)
    {
      HookOne(n, name, sprout.root, sprout.nodes);
      TakeOver(sprout, Some((n, name)));
    }

    ghost method CatchUpWith(now: Models)
      requires Tied(Book().(models := now), root)
      modifies this`models
      ensures Valid() && Value() == now[root]
    {
      ghost var book := Book();
      models := now;
      assert Book() == book.(models := now);
    }

    /** Removes whatever is at a path, which may be nothing. */
    method Detach(path: Path)
      requires Valid() && path != []
      modifies this`models, nodes
      ensures Valid() && Edited(old(Value()), path, Remove) == Some(Value())
    {
      var chain := Chain(path);
      if |chain| != |path| {
        BreaksOff(Book(), chain, path, Remove);
      } else if path[|path| - 1] !in chain[|path| - 1].children {
        NothingThere(Book(), chain, path);
      } else {
        DetachFrom(chain, path);
      }
    }

    method DetachFrom(chain: seq<TreeNode>, path: Path)
      requires Valid() && LeadsTo(Book(), chain, path) && |chain| == |path| && chain[0] == root
      requires path[|path| - 1] in chain[|path| - 1].children
      modifies this`models, nodes
      ensures Valid() && Edited(old(Value()), path, Remove) == Some(Value())
    {
      ghost var before := Book();
      ChainEnd(before, chain, path);
      var i := CutIn(chain[|path| - 1], path[|path| - 1]);
      ghost var now := DetachDone(before, chain, path, i);
      CatchUpWith(now);
    }

    /** Puts another tree's root at a path, in place of whatever was there;
        refused where the parent is not there. */
    method Attach(path: Path, sprout: NodeTree) returns (ok: bool)
      requires Valid() && path != [] && sprout.Valid() && nodes !! sprout.nodes && sprout != this
      modifies this, nodes
      ensures Valid() && Edited(old(Value()), path, Graft(old(sprout.Value()))) == if ok then Some(Value()) else None
      ensures !ok ==> Value() == old(Value())
    {
      var chain := Chain(path);
      if |chain| != |path| {
        BreaksOff(Book(), chain, path, Graft(sprout.Value()));
        return false;
      }
      AttachTo(chain, path, sprout);
      return true;
    }

    method AttachTo(chain: seq<TreeNode>, path: Path, sprout: NodeTree)
      requires Valid() && LeadsTo(Book(), chain, path) && |chain| == |path| && chain[0] == root
      requires sprout.Valid() && nodes !! sprout.nodes && sprout != this
      modifies this, nodes
      ensures Valid() && Edited(old(Value()), path, Graft(old(sprout.Value()))) == Some(Value())
    {
      ghost var now := AttachDone(Book(), chain, path, sprout.Book(), sprout.root);
      HookIn(chain[|path| - 1], path[|path| - 1], sprout);
      CatchUpWith(now);
    }

    /** The node at a path, found exactly where the tree as a value leads there;
        and the chain to it. */
    method NodeAt(path: Path) returns (n: Option<TreeNode>, ghost chain: seq<TreeNode>)
      requires Valid()
      ensures n.Some? <==> Led(Value(), path)
      ensures n.Some? ==> n.value in nodes && models[n.value] == Down(Value(), path)
      ensures n.Some? ==> IsChain(Book().owns, chain, path) && chain[0] == root && n.value == chain[|path|]
    {
      chain := [root];
      var at := root;
      var i := 0;
      ghost var owns := OwnsOf(nodes);
      while i < |path|
        invariant 0 <= i <= |path| && |chain| == i + 1 && chain[0] == root && chain[i] == at
        invariant IsChain(owns, chain, path[..i])
      {
        if path[i] !in at.children {
          GivesOut(Book(), chain, path);
          return None, chain;
        }
        assert Holds(at, owns[at].children, nodes, links);
        at := at.children[path[i]];
        ChainLonger(owns, chain, path, i, at);
        chain := chain + [at];
        i := i + 1;
      }
      assert path[..|path|] == path;
      Arrives(Book(), chain, path);
      return Some(at), chain;
    }

    method Blank(n: TreeNode, blob: Hash)
      requires n in nodes
      modifies n
      ensures Book() == Changed(old(Book()), n, BlobOwn(old(OwnOf(n)), blob))
    {
      ghost var before := OwnsOf(nodes);
      n.blob := blob;
      n.children := map[];
      n.order := [];
      OwnsBut(before, nodes, n);
    }

    /** Makes the node at a path a leaf of this blob; refused where there is
        none. */
    method SetBlob(path: Path, blob: Hash) returns (ok: bool)
      requires Valid() && path != []
      modifies this`models, nodes
      ensures Valid() && Edited(old(Value()), path, Reblob(blob)) == if ok then Some(Value()) else None
      ensures !ok ==> Value() == old(Value())
    {
      var n;
      ghost var chain;
      n, chain := NodeAt(path);
      if n.None? {
        ReblobMissing(Value(), path, blob);
        return false;
      }
      BlobAt(n.value, chain, path, blob);
      return true;
    }

    method BlobAt(n: TreeNode, ghost chain: seq<TreeNode>, path: Path, blob: Hash)
      requires Valid() && path != [] && IsChain(Book().owns, chain, path) && chain[0] == root && n == chain[|path|]
      modifies this`models, n
      ensures Valid() && Edited(old(Value()), path, Reblob(blob)) == Some(Value())
    {
      ghost var now := BlobDone(Book(), chain, path, blob);
      Blank(n, blob);
      CatchUpWith(now);
    }
  }
}
