// What a targeted build comes to, told from the two values and the declared
// paths alone: when it is refused, and when its hash is a full build's.

module Targeted {
  import opened Basics
  import opened Git
  import opened Schema
  import opened Nodes
  import opened Places
  import opened Builder

  ghost predicate HasMembers(t: Type, v: Value, p: Path) {
    MemberOn(t, v, p).Some? && !MemberOn(t, v, p).value.leaf
  }

  // A later declaration redoes everything a shorter path leads to.
  ghost predicate Outdone(ds: seq<Path>, k: nat)
    requires k < |ds|
  {
    exists j :: k < j < |ds| && ds[j] <= ds[k] && ds[j] != ds[k]
  }

  // Above what is redone, nothing that stored something now stores nothing.
  ghost predicate AboveFilled(c: Codec, t: Type, u: Value, v: Value, ds: seq<Path>) {
    forall k, q :: 0 <= k < |ds| && q <= ds[k] && q != [] && !Covers(ds, q) && StoresUnder(c, t, u, q) ==>
      StoresUnder(c, t, v, q)
  }

  // What is redone stores something, if it has members and is not redone again
  // as part of something larger.
  ghost predicate RedoneFilled(c: Codec, t: Type, v: Value, ds: seq<Path>) {
    forall k :: 0 <= k < |ds| && HasMembers(t, v, ds[k]) && !Outdone(ds, k) ==> StoresUnder(c, t, v, ds[k])
  }

  // ----- Where nodes stand once a list of paths is redone -----

  lemma {:induction false} RedoneElsewhere(at: iset<Path>, c: Codec, t: Type, v: Value, ds: seq<Path>, n: nat, q: Path)
    requires n <= |ds| && forall k :: 0 <= k < n ==> !(ds[k] <= q)
    ensures q in RedoneAll(at, c, t, v, ds, n) <==> q in at
  {
    if n > 0 { RedoneElsewhere(at, c, t, v, ds, n - 1, q); }
  }

  // The last path at or above q decides.
  lemma {:induction false} RedoneLast(at: iset<Path>, c: Codec, t: Type, v: Value, ds: seq<Path>, n: nat, k: nat, q: Path)
    requires k < n <= |ds| && ds[k] <= q && forall j :: k < j < n ==> !(ds[j] <= q)
    ensures q in RedoneAll(at, c, t, v, ds, n) <==> Regrown(c, t, v, ds[k], q)
  {
    if n > k + 1 { RedoneLast(at, c, t, v, ds, n - 1, k, q); }
  }

  lemma {:induction false} LastCovering(ds: seq<Path>, n: nat, q: Path) returns (k: nat)
    requires n <= |ds| && exists j :: 0 <= j < n && ds[j] <= q
    ensures k < n && ds[k] <= q && forall j :: k < j < n ==> !(ds[j] <= q)
  {
    if ds[n - 1] <= q { k := n - 1; } else { k := LastCovering(ds, n - 1, q); }
  }

  lemma PrefixesCompare(p: Path, q: Path, r: Path)
    requires p <= r && q <= r
    ensures p <= q || q <= p
  {
    if |p| <= |q| {
      assert p == r[..|p|] == q[..|p|];
    } else {
      assert q == r[..|q|] == p[..|q|];
    }
  }

  lemma UncoveredFilled(c: Codec, t: Type, u: Value, v: Value, ds: seq<Path>, q: Path)
    requires AgreeElsewhere(c, t, u, v, ds) && AboveFilled(c, t, u, v, ds)
    requires q != [] && !Covers(ds, q) && StoresUnder(c, t, u, q)
    ensures StoresUnder(c, t, v, q)
  {
    var r :| q <= r && Stored(c, t, false, u, r).Some?;
    if Covers(ds, r) {
      var k :| 0 <= k < |ds| && ds[k] <= r;
      PrefixesCompare(ds[k], q, r);
    } else {
      assert Stored(c, t, false, v, r).Some?;
    }
  }

  // A set leaf stores itself.
  lemma LeafFilled(c: Codec, t: Type, v: Value, p: Path)
    requires Proper(t) && HasType(t, false, v) && p != []
    requires MemberOn(t, v, p).Some? && MemberOn(t, v, p).value.leaf && !Unset(MemberOn(t, v, p).value)
    ensures StoresUnder(c, t, v, p)
  {
    MemberTyped(t, v, p);
    StoredBeneath(c, t, v, p, []);
    assert p + [] == p;
  }

  lemma CoveredFilled(at: iset<Path>, c: Codec, t: Type, v: Value, ds: seq<Path>, q: Path)
    requires Proper(t) && HasType(t, false, v) && RedoneFilled(c, t, v, ds)
    requires q != [] && Covers(ds, q) && q in RedoneAll(at, c, t, v, ds, |ds|)
    ensures StoresUnder(c, t, v, q)
  {
    var k := LastCovering(ds, |ds|, q);
    RedoneLast(at, c, t, v, ds, |ds|, k, q);
    if q == ds[k] && !HasMembers(t, v, q) { LeafFilled(c, t, v, q); }
  }

  lemma AllFilled(c: Codec, t: Type, u: Value, v: Value, ds: seq<Path>)
    requires Proper(t) && HasType(t, false, v) && AgreeElsewhere(c, t, u, v, ds)
    requires AboveFilled(c, t, u, v, ds) && RedoneFilled(c, t, v, ds)
    ensures forall q :: q != [] && q in RedoneAll(Built(c, t, u), c, t, v, ds, |ds|) ==> StoresUnder(c, t, v, q)
  {
    forall q | q != [] && q in RedoneAll(Built(c, t, u), c, t, v, ds, |ds|) ensures StoresUnder(c, t, v, q) {
      if Covers(ds, q) {
        CoveredFilled(Built(c, t, u), c, t, v, ds, q);
      } else {
        RedoneElsewhere(Built(c, t, u), c, t, v, ds, |ds|, q);
        UncoveredFilled(c, t, u, v, ds, q);
      }
    }
  }

  // A path with members that is not outdone is left standing.
  lemma RedoneStands(at: iset<Path>, c: Codec, t: Type, v: Value, ds: seq<Path>, k: nat)
    requires k < |ds| && HasMembers(t, v, ds[k]) && !Outdone(ds, k)
    ensures ds[k] in RedoneAll(at, c, t, v, ds, |ds|)
  {
    assert ds[k] <= ds[k];
    var l := LastCovering(ds, |ds|, ds[k]);
    RedoneLast(at, c, t, v, ds, |ds|, l, ds[k]);
  }

  lemma OnlyFilled(c: Codec, t: Type, u: Value, v: Value, ds: seq<Path>)
    requires [] !in ds
    requires forall q :: q != [] && q in RedoneAll(Built(c, t, u), c, t, v, ds, |ds|) ==> StoresUnder(c, t, v, q)
    ensures AboveFilled(c, t, u, v, ds) && RedoneFilled(c, t, v, ds)
  {
    forall k, q | 0 <= k < |ds| && q <= ds[k] && q != [] && !Covers(ds, q) && StoresUnder(c, t, u, q)
      ensures StoresUnder(c, t, v, q)
    {
      RedoneElsewhere(Built(c, t, u), c, t, v, ds, |ds|, q);
    }
    forall k | 0 <= k < |ds| && HasMembers(t, v, ds[k]) && !Outdone(ds, k) ensures StoresUnder(c, t, v, ds[k]) {
      RedoneStands(Built(c, t, u), c, t, v, ds, k);
      assert ds[k] in ds;
    }
  }

  // ----- When a targeted build has the full build's hash -----

  // From a tree with no empty directory, a targeted build that was told of
  // every change ends at the full build's hash exactly when it leaves nothing
  // standing that stores nothing: above the declared paths, where something
  // was stored something still is; and what is redone stores something, or has
  // no members, or is redone again under a shorter path declared later.
  lemma TargetedIsBuild(n0: Node, n: Node, c: Codec, t: Type, u: Value, v: Value, ds: seq<Path>, full: Hash)
    requires Proper(t) && HasType(t, false, v) && [] !in ds
    requires Shaped(n0) && Settled(n0, {}) && Mirrors(n0, c, t, u) && NoEmptyDirs(n0.tree)
    requires Shaped(n) && Settled(n, {}) && Spliced(n, n0, c, t, v, ds) && AgreeElsewhere(c, t, u, v, ds)
    requires Standing(n) == RedoneAll(Standing(n0), c, t, v, ds, |ds|)
    requires IsBuild(full, c, t, v)
    ensures n.tree == full <==> AboveFilled(c, t, u, v, ds) && RedoneFilled(c, t, v, ds)
  {
    FilledIsBuilt(n0, c, t, u);
    SplicedMirrors(n, n0, c, t, u, v, ds);
    StandingIsBuild(n, c, t, v, full);
    if AboveFilled(c, t, u, v, ds) && RedoneFilled(c, t, v, ds) { AllFilled(c, t, u, v, ds); }
    if n.tree == full { OnlyFilled(c, t, u, v, ds); }
  }

  lemma FilledIsBuilt(n: Node, c: Codec, t: Type, v: Value)
    requires Shaped(n) && Settled(n, {}) && Mirrors(n, c, t, v) && NoEmptyDirs(n.tree)
    ensures Standing(n) == Built(c, t, v)
  {
    SettledStands(n);
    FilledBushy(n);
    BuiltStanding(n, c, t, v);
  }

  // Every nonempty path above p stores something if it used to.
  ghost predicate WayKept(c: Codec, t: Type, u: Value, v: Value, p: Path) {
    forall q :: q <= p && q != p && q != [] && StoresUnder(c, t, u, q) ==> StoresUnder(c, t, v, q)
  }

  lemma CoversOne(p: Path, q: Path)
    ensures Covers([p], q) <==> p <= q
  {
    assert [p][0] == p;
  }

  lemma WayKeptAbove(c: Codec, t: Type, u: Value, v: Value, p: Path)
    requires WayKept(c, t, u, v, p)
    ensures AboveFilled(c, t, u, v, [p])
  {
    forall k, q | 0 <= k < |[p]| && q <= [p][k] && q != [] && !Covers([p], q) && StoresUnder(c, t, u, q)
      ensures StoresUnder(c, t, v, q)
    {
      CoversOne(p, q);
    }
  }

  lemma AboveWayKept(c: Codec, t: Type, u: Value, v: Value, p: Path)
    requires AboveFilled(c, t, u, v, [p])
    ensures WayKept(c, t, u, v, p)
  {
    forall q | q <= p && q != p && q != [] && StoresUnder(c, t, u, q) ensures StoresUnder(c, t, v, q) {
      CoversOne(p, q);
      assert q <= [p][0];
    }
  }

  lemma RedoneOne(c: Codec, t: Type, v: Value, p: Path)
    ensures RedoneFilled(c, t, v, [p]) <==> (HasMembers(t, v, p) ==> StoresUnder(c, t, v, p))
  {
    assert [p][0] == p && !Outdone([p], 0);
  }

  // With one path declared: the way to it, and the path itself if a member with
  // members stands there.
  lemma OnePathFilled(c: Codec, t: Type, u: Value, v: Value, p: Path)
    ensures AboveFilled(c, t, u, v, [p]) && RedoneFilled(c, t, v, [p]) <==>
            WayKept(c, t, u, v, p) && (HasMembers(t, v, p) ==> StoresUnder(c, t, v, p))
  {
    if WayKept(c, t, u, v, p) { WayKeptAbove(c, t, u, v, p); }
    if AboveFilled(c, t, u, v, [p]) { AboveWayKept(c, t, u, v, p); }
    RedoneOne(c, t, v, p);
  }

  // ----- When one path is refused -----

  lemma LeafUnder(c: Codec, t: Type, u: Value, p: Path)
    requires IsLeafPath(t, p) && StoresUnder(c, t, u, p)
    ensures Stored(c, t, false, u, p).Some?
  {
    var r :| p <= r && Stored(c, t, false, u, r).Some?;
    StoredIsTyped(c, t, u, r);
    LeafPathEnds(t, p, r);
  }

  // Redoing a set leaf right after a full build of u: it must have been set
  // then. One that appears is refused.
  lemma LeafRedone(c: Codec, t: Type, u: Value, v: Value, p: Path)
    requires p != [] && MemberOn(t, v, p).Some? && MemberOn(t, v, p).value.leaf && !Unset(MemberOn(t, v, p).value)
    ensures CanRedo(Built(c, t, u), t, v, p) <==> Stored(c, t, false, u, p).Some?
  {
    MemberIsTyped(t, v, p);
    if StoresUnder(c, t, u, p) { LeafUnder(c, t, u, p); }
    assert p <= p;
  }

  // ----- Runs -----

  // Every declared address is the same member's before and after.
  ghost predicate Steady(before: map<Addr, Path>, after: map<Addr, Path>, changed: seq<Addr>) {
    forall k :: 0 <= k < |changed| ==> changed[k] in before && changed[k] in after && before[changed[k]] == after[changed[k]]
  }

  /** Builds u, then v with what changed declared, and beside that v in full. */
  method BuildTwice(c: Codec, t: Type, u: Value, v: Value, before: map<Addr, Path>, after: map<Addr, Path>,
        changed: seq<Addr>) returns (targeted: Option<Hash>, full: Option<Hash>)
    requires Proper(t) && HasType(t, false, u) && HasType(t, false, v) && Laid(before, t, u) && Laid(after, t, v)
    requires KeysValid(t, false, u) && KeysValid(t, false, v)
    requires changed != [] && Steady(before, after, changed) && [] !in Builder.Named(after, changed)
    requires AgreeElsewhere(c, t, u, v, Builder.Named(after, changed))
    ensures full.Some? && IsBuild(full.value, c, t, v)
    ensures targeted.Some? <==> CanRedoAll(Built(c, t, u), c, t, v, Builder.Named(after, changed))
    ensures targeted.Some? ==> SameLeaves(targeted.value, full.value)
    ensures targeted.Some? ==>
              (targeted == full <==>
               AboveFilled(c, t, u, v, Builder.Named(after, changed)) && RedoneFilled(c, t, v, Builder.Named(after, changed)))
  {
    ghost var ds := Builder.Named(after, changed);
    var b := BuildFirst(c, t, u, before);
    ghost var n0 := b.root.value;
    ghost var declared;
    FilledIsBuilt(n0, c, t, u);
    targeted, declared := b.Build(v, after, changed);
    full := BuildFull(c, t, v, after);
    if targeted.Some? {
      TargetedIsBuild(n0, b.root.value, c, t, u, v, ds, full.value);
      SplicedMirrors(b.root.value, n0, c, t, u, v, ds);
      StandingIsBuild(b.root.value, c, t, v, full.value);
    }
  }

  // A declared member with members stands at the address, or above it.
  ghost predicate DeclaredAbove(t: Type, v: Value, layout: map<Addr, Path>, changed: seq<Addr>, a: Addr)
    requires a in layout
  {
    exists j :: 0 <= j < |changed| && changed[j] in layout && layout[changed[j]] <= layout[a] && HasMembers(t, v, layout[changed[j]])
  }

  lemma AboveRetaken(t: Type, v: Value, layout: map<Addr, Path>, changed: seq<Addr>, a: Addr)
    requires a in layout && DeclaredAbove(t, v, layout, changed, a)
    requires forall j :: 0 <= j < |changed| ==> changed[j] in layout
    ensures Retaken(t, v, Builder.Named(layout, changed), layout[a])
  {
    var j :| 0 <= j < |changed| && layout[changed[j]] <= layout[a] && HasMembers(t, v, layout[changed[j]]);
    assert Within(t, v, Builder.Named(layout, changed)[j], layout[a]);
  }

  /** Builds v, then w with addresses declared that v had at or beneath a declared
      member with members, new ones among them, and w still has there. None of
      them is refused: whether the second build succeeds is decided by what stands
      after the first. */
  method BuildOnward(b: Builder, v: Value, layout: map<Addr, Path>, changed: seq<Addr>, w: Value, after: map<Addr, Path>,
        again: seq<Addr>) returns (first: Option<Hash>, second: Option<Hash>, ghost mid: Node)
    requires b.Ready() && Proper(b.typ) && HasType(b.typ, false, v) && HasType(b.typ, false, w)
    requires Laid(layout, b.typ, v) && Laid(after, b.typ, w) && changed != [] && again != []
    requires forall k :: 0 <= k < |again| ==>
               && again[k] in layout && again[k] in after && after[again[k]] == layout[again[k]]
               && DeclaredAbove(b.typ, v, layout, changed, again[k])
    modifies b
    ensures first.Some? ==> mid.tree == first.value
    ensures first.Some? && [] !in Builder.Named(after, again) ==>
              (second.Some? <==> CanRedoAll(Standing(mid), b.codec, b.typ, w, Builder.Named(after, again)))
    ensures first.Some? && [] in Builder.Named(after, again) ==> (second.Some? <==> KeysValid(b.typ, false, w))
  {
    ghost var declared;
    first, declared := b.Build(v, layout, changed);
    second := None;
    mid := Fresh;
    if first.Some? {
      mid := b.root.value;
      forall k | 0 <= k < |again| ensures again[k] in b.index && b.index[again[k]] == after[again[k]] {
        AboveRetaken(b.typ, v, layout, changed, again[k]);
      }
      ghost var there;
      second, there := b.Build(w, after, again);
    }
  }

  method BuildFirst(c: Codec, t: Type, u: Value, layout: map<Addr, Path>) returns (b: Builder)
    requires Proper(t) && HasType(t, false, u) && Laid(layout, t, u) && KeysValid(t, false, u)
    ensures fresh(b) && b.codec == c && b.typ == t && b.Ready() && b.index == layout
    ensures Mirrors(b.root.value, c, t, u) && NoEmptyDirs(b.root.value.tree)
  {
    b := new Builder(c, t, {});
    var r, _ := b.Build(u, layout, []);
  }

  method BuildFull(c: Codec, t: Type, v: Value, layout: map<Addr, Path>) returns (r: Option<Hash>)
    requires Proper(t) && HasType(t, false, v) && Laid(layout, t, v) && KeysValid(t, false, v)
    ensures r.Some? && IsBuild(r.value, c, t, v)
  {
    var b := new Builder(c, t, {});
    ghost var whole;
    r, whole := b.Build(v, layout, []);
  }

  // A struct of a struct of one optional field.
  function Nested(): Type {
    Struct([Field("A", Struct([Field("B", Pointer(Scalar), false)]), false)])
  }

  function WithB(d: Option<Datum>): Value {
    Fields([Fields([Whole(d)])])
  }

  const B: Path := ["A", "B"]

  lemma OneField(name: string, t: Type, x: Value, q: string)
    ensures MemberAt(Struct([Field(name, t, false)]), Fields([x]), q) ==
            if q == name then Some(Member(t, IsLeafType(t), x)) else None
  {
    var fs := [Field(name, t, false)];
    if q == name { assert FieldFrom(fs, q, 0) == 0; } else { assert FieldFrom(fs, q, 0) == 1; }
  }

  lemma StoredField(c: Codec, name: string, t: Type, x: Value, q: Path)
    ensures Stored(c, Struct([Field(name, t, false)]), false, Fields([x]), q) ==
            if q != [] && q[0] == name then Stored(c, t, IsLeafType(t), x, q[1..]) else None
  {
    if q != [] { OneField(name, t, x, q[0]); }
  }

  lemma StoredB(c: Codec, d: Option<Datum>, q: Path)
    ensures Stored(c, Nested(), false, WithB(d), q) ==
            if q == B && d.Some? then Some(c.enc(Pointer(Scalar), d.value)) else None
  {
    var inner, held := Struct([Field("B", Pointer(Scalar), false)]), Fields([Whole(d)]);
    StoredField(c, "A", inner, held, q);
    if |q| > 1 {
      StoredField(c, "B", Pointer(Scalar), Whole(d), q[1..]);
      assert q == [q[0], q[1]] + q[1..][1..];
    }
  }

  lemma MemberB(d: Option<Datum>)
    ensures MemberOn(Nested(), WithB(d), B) == Some(Member(Pointer(Scalar), true, Whole(d)))
  {
    OneField("A", Struct([Field("B", Pointer(Scalar), false)]), Fields([Whole(d)]), "A");
    OneField("B", Pointer(Scalar), Whole(d), "B");
    assert B[1..] == ["B"];
  }

  lemma NestedFine(d: Option<Datum>)
    ensures Proper(Nested()) && HasType(Nested(), false, WithB(d)) && KeysValid(Nested(), false, WithB(d))
    ensures Laid(map[0 := B], Nested(), WithB(d))
  {
    var t, v := Nested(), WithB(d);
    var inner, held := t.fields[0].typ, v.fields[0];
    assert Proper(inner) && HasType(inner, false, held) && KeysValid(inner, false, held);
    MemberB(d);
  }

  // Where only B differs, declaring B is enough.
  lemma OnlyB(c: Codec, d: Option<Datum>, e: Option<Datum>)
    ensures AgreeElsewhere(c, Nested(), WithB(d), WithB(e), [B])
  {
    forall q | !Covers([B], q)
      ensures Stored(c, Nested(), false, WithB(d), q) == Stored(c, Nested(), false, WithB(e), q)
    {
      StoredB(c, d, q);
      StoredB(c, e, q);
      CoversOne(B, q);
    }
  }

  // Clearing B leaves nothing beneath A, where B was stored before.
  lemma ClearingEmpties(c: Codec)
    ensures !AboveFilled(c, Nested(), WithB(Some(0)), WithB(None), [B])
  {
    var t, u, v := Nested(), WithB(Some(0)), WithB(None);
    forall q { StoredB(c, None, q); }
    StoredB(c, Some(0), B);
    CoversOne(B, ["A"]);
    assert ["A"] <= B && StoresUnder(c, t, u, ["A"]) && !StoresUnder(c, t, v, ["A"]);
    assert ["A"] <= [B][0];
  }

  lemma CanRedoOne(at: iset<Path>, c: Codec, t: Type, v: Value, p: Path)
    requires p != []
    ensures CanRedoAll(at, c, t, v, [p]) <==> CanRedo(at, t, v, p)
  {
    assert [p][0] == p && RedoneAll(at, c, t, v, [p], 0) == at;
  }

  // Set, built, then cleared: the targeted build keeps an empty directory where
  // a full one has none.
  method EmptyDirLeftBehind(c: Codec) returns (targeted: Option<Hash>, full: Option<Hash>)
    ensures targeted.Some? && full.Some? && targeted != full && SameLeaves(targeted.value, full.value)
  {
    var layout: map<Addr, Path> := map[0 := B];
    NestedFine(Some(0));
    NestedFine(None);
    MemberB(None);
    OnlyB(c, Some(0), None);
    ClearingEmpties(c);
    CanRedoOne(Built(c, Nested(), WithB(Some(0))), c, Nested(), WithB(None), B);
    assert Builder.Named(layout, [0]) == [B];
    targeted, full := BuildTwice(c, Nested(), WithB(Some(0)), WithB(None), layout, layout, [0]);
  }

  // Cleared, built, then set: the leaf that appears is refused, though the
  // value can be built in full.
  method LeafAppears(c: Codec) returns (targeted: Option<Hash>, full: Option<Hash>)
    ensures targeted.None? && full.Some?
  {
    var layout: map<Addr, Path> := map[0 := B];
    NestedFine(None);
    NestedFine(Some(0));
    MemberB(Some(0));
    OnlyB(c, None, Some(0));
    StoredB(c, None, B);
    LeafRedone(c, Nested(), WithB(None), WithB(Some(0)), B);
    CanRedoOne(Built(c, Nested(), WithB(None)), c, Nested(), WithB(Some(0)), B);
    assert Builder.Named(layout, [0]) == [B];
    targeted, full := BuildTwice(c, Nested(), WithB(None), WithB(Some(0)), layout, layout, [0]);
  }

  // ----- The order of nested declarations -----

  // A member with members declared beneath another: after it, its node is left
  // whatever it stores, before it only if it stores something.
  lemma OrderMatters(c: Codec, t: Type, v: Value, p: Path, q: Path)
    requires p != [] && p <= q && p != q && HasMembers(t, v, p) && HasMembers(t, v, q) && StoresUnder(c, t, v, p)
    ensures RedoneFilled(c, t, v, [q, p])
    ensures RedoneFilled(c, t, v, [p, q]) <==> StoresUnder(c, t, v, q)
  {
    assert [q, p][1] == p && [q, p][0] == q && Outdone([q, p], 0);
    assert [p, q][1] == q && [p, q][0] == p && !Outdone([p, q], 1) && !Outdone([p, q], 0);
  }
}
