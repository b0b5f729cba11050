// What a client is sent to get from one tree to another: a cheap comparison by
// position, an exact traversal, and the rule for choosing between them.

module Select {
  import opened Basics
  import opened Git

  // The tree at h can be read from a store holding these objects.
  predicate Reads(held: set<Hash>, h: Hash) {
    h in held && IsTree(h)
  }

  // ----- What a selection promises -----

  ghost function Base(from: Hash): set<Hash> {
    if from == Zero then {} else Reach(from)
  }

  ghost predicate NoRepeats(out: seq<Hash>) {
    forall i, j :: 0 <= i < j < |out| ==> out[i] != out[j]
  }

  ghost predicate Names(t: Hash, h: Hash) {
    IsTree(t) && exists k :: 0 <= k < |t.obj.entries| && t.obj.entries[k].hash == h
  }

  /** The object at i follows a selected tree that names it. */
  ghost predicate NamedBefore(out: seq<Hash>, i: nat)
    requires i < |out|
  {
    exists j :: 0 <= j < i && Names(out[j], out[i])
  }

  /** Everything at h is held already or selected. */
  ghost predicate Covered(h: Hash, safe: set<Hash>, out: seq<Hash>) {
    forall x :: x in Reach(h) ==> x in safe || x in out
  }

  /** Nothing twice, nothing foreign to the tree, every object but the root
      after a tree that names it, and no gap. */
  ghost predicate Complete(from: Hash, goal: Hash, out: seq<Hash>) {
    && NoRepeats(out)
    && (forall x :: x in out ==> x in Reach(goal))
    && Covered(goal, Base(from), out)
    && forall i :: 0 <= i < |out| && out[i] != goal ==> NamedBefore(out, i)
  }

  ghost predicate Exact(from: Hash, goal: Hash, out: seq<Hash>) {
    forall x :: x in out <==> x in Reach(goal) && x !in Base(from)
  }

  /** What the older list holds at e's name and mode. */
  function Counterpart(was: seq<Entry>, e: Entry): Hash {
    if was == [] then Zero
    else if was[0].name == e.name && was[0].mode == e.mode then was[0].hash
    else Counterpart(was[1..], e)
  }

  function EntriesOf(h: Hash): seq<Entry> {
    if IsTree(h) then h.obj.entries else []
  }

  /** What a comparison position by position cannot prune: every object whose
      counterpart in the older tree differs, down from the root. */
  ghost function Moved(from: Hash, goal: Hash): set<Hash>
    decreases goal
  {
    if from == goal then {}
    else
      {goal} + if IsTree(goal) then
                 set i, x | 0 <= i < |goal.obj.entries|
                            && x in Moved(Counterpart(EntriesOf(from), goal.obj.entries[i]), goal.obj.entries[i].hash) :: x
               else {}
  }

  // ----- The in-step scan -----

  /** The older list from where e would stand in it. */
  function From(was: seq<Entry>, e: Entry): (rest: seq<Entry>)
    ensures |rest| <= |was| && rest == was[|was| - |rest|..]
    ensures forall k :: 0 <= k < |was| - |rest| ==> Before(was[k], e)
    ensures rest != [] ==> !Before(rest[0], e)
  {
    if was == [] || !Before(was[0], e) then was else From(was[1..], e)
  }

  function Standing(rest: seq<Entry>, e: Entry): Hash {
    if rest != [] && rest[0].name == e.name && rest[0].mode == e.mode then rest[0].hash else Zero
  }

  lemma CanonicalTail(was: seq<Entry>)
    requires Canonical(was) && was != []
    ensures Canonical(was[1..])
  {
  }

  // What sorts before e is not e's entry.
  lemma NotBeforeItself(a: Entry, e: Entry)
    requires Before(a, e)
    ensures a.name != e.name || a.mode != e.mode
  {
    CmpIsEquality(SortName(e), SortName(e));
  }

  // On a canonical list what stands where e would is exactly the entry of e's
  // name and mode, and nothing skipped could have answered for a later name.
  lemma {:induction false} ScanExact(was: seq<Entry>, e: Entry, later: Entry)
    requires Canonical(was)
    requires later == e || Before(e, later)
    ensures Standing(From(was, e), e) == Counterpart(was, e)
    ensures Counterpart(From(was, e), later) == Counterpart(was, later)
    decreases |was|
  {
    if was == [] {
    } else if Before(was[0], e) {
      if later != e {
        LessTransitive(SortName(was[0]), SortName(e), SortName(later));
      }
      NotBeforeItself(was[0], e);
      NotBeforeItself(was[0], later);
      CanonicalTail(was);
      ScanExact(was[1..], e, later);
    } else if was[0].name != e.name || was[0].mode != e.mode {
      NothingLater(was, e);
    }
  }

  // An entry that does not sort before e, and is not e's, ends the search.
  lemma {:induction false} NothingLater(was: seq<Entry>, e: Entry)
    requires Canonical(was) && was != [] && !Before(was[0], e)
    requires was[0].name != e.name || was[0].mode != e.mode
    ensures Counterpart(was, e) == Zero
  {
    CmpIsEquality(SortName(e), SortName(e));
    forall k | 0 <= k < |was|
      ensures was[k].name != e.name || was[k].mode != e.mode
    {
      assert k > 0 ==> Before(was[0], was[k]);
    }
    CounterpartMiss(was, e);
  }

  lemma {:induction false} CounterpartMiss(was: seq<Entry>, e: Entry)
    requires forall j :: 0 <= j < |was| ==> was[j].name != e.name || was[j].mode != e.mode
    ensures Counterpart(was, e) == Zero
  {
    if was != [] {
      CounterpartMiss(was[1..], e);
    }
  }

  // ----- The descent, as a function -----

  /** What out becomes once goal, compared against from, has been descended:
      nothing below an object that is unmoved, marked or selected already is
      looked at. None is a tree that cannot be read. */
  ghost function Picked(held: set<Hash>, marked: set<Hash>, from: Hash, goal: Hash, isTree: bool, out: seq<Hash>)
    : Option<seq<Hash>>
    decreases goal
  {
    if from == goal || goal in marked || goal in out then Some(out)
    else if !isTree then Some(out + [goal])
    else if !Reads(held, goal) || (from != Zero && !Reads(held, from)) then None
    else PickedAll(held, marked, EntriesOf(from), goal.obj.entries, out + [goal])
  }

  ghost function PickedAll(held: set<Hash>, marked: set<Hash>, was: seq<Entry>, now: seq<Entry>, out: seq<Hash>)
    : Option<seq<Hash>>
    decreases now
  {
    if now == [] then Some(out)
    else
      var rest := From(was, now[0]);
      match Picked(held, marked, Standing(rest, now[0]), now[0].hash, now[0].mode.Dir?, out)
      case None => None
      case Some(more) => PickedAll(held, marked, rest, now[1..], more)
  }

  // A baseline that can be walked beside an entry of this kind.
  ghost predicate Usable(held: set<Hash>, from: Hash, isTree: bool) {
    from != Zero ==> from in held && (isTree ==> IsTree(from))
  }

  ghost predicate AllHeld(held: set<Hash>, es: seq<Entry>) {
    forall k :: 0 <= k < |es| ==> es[k].hash in held && KindMatches(es[k])
  }

  // Over a closed store the descent only fails on a root that is not there.
  lemma {:induction false} PickedSucceeds(held: set<Hash>, marked: set<Hash>, from: Hash, goal: Hash, isTree: bool,
        out: seq<Hash>)
    requires Closed(held) && goal in held && (isTree <==> IsTree(goal)) && Usable(held, from, isTree)
    ensures Picked(held, marked, from, goal, isTree, out).Some?
    decreases goal
  {
    if isTree && !(from == goal || goal in marked || goal in out) {
      PickedAllSucceeds(held, marked, EntriesOf(from), goal.obj.entries, out + [goal]);
    }
  }

  lemma {:induction false} PickedAllSucceeds(held: set<Hash>, marked: set<Hash>, was: seq<Entry>, now: seq<Entry>,
        out: seq<Hash>)
    requires Closed(held) && AllHeld(held, was) && AllHeld(held, now)
    ensures PickedAll(held, marked, was, now, out).Some?
    decreases now
  {
    if now != [] {
      var rest := From(was, now[0]);
      var before := Standing(rest, now[0]);
      PickedSucceeds(held, marked, before, now[0].hash, now[0].mode.Dir?, out);
      PickedAllSucceeds(held, marked, rest, now[1..], Picked(held, marked, before, now[0].hash, now[0].mode.Dir?, out).value);
    }
  }

  lemma AppendNew(out: seq<Hash>, h: Hash)
    requires NoRepeats(out) && h !in out
    ensures NoRepeats(out + [h])
  {
  }

  lemma ReachBelow(goal: Hash, k: nat, x: Hash)
    requires IsTree(goal) && k < |goal.obj.entries| && x in Reach(goal.obj.entries[k].hash)
    ensures x in Reach(goal)
  {
  }

  // Some entry reaches x.
  ghost predicate Among(x: Hash, es: seq<Entry>) {
    exists k :: 0 <= k < |es| && x in Reach(es[k].hash)
  }

  lemma AmongLater(x: Hash, es: seq<Entry>)
    requires es != [] && (x in Reach(es[0].hash) || Among(x, es[1..]))
    ensures Among(x, es)
  {
    if x !in Reach(es[0].hash) {
      var k :| 0 <= k < |es[1..]| && x in Reach(es[1..][k].hash);
      assert x in Reach(es[k + 1].hash);
    }
  }

  lemma AmongTree(x: Hash, goal: Hash)
    requires IsTree(goal) && Among(x, goal.obj.entries)
    ensures x in Reach(goal)
  {
    var k :| 0 <= k < |goal.obj.entries| && x in Reach(goal.obj.entries[k].hash);
    ReachBelow(goal, k, x);
  }

  // Only appended to, never twice, and nothing marked.
  ghost predicate Grows(marked: set<Hash>, out: seq<Hash>, r: seq<Hash>) {
    && out <= r && (NoRepeats(out) ==> NoRepeats(r))
    && forall x :: x in r && x !in out ==> x !in marked
  }

  lemma GrowsOne(marked: set<Hash>, out: seq<Hash>, goal: Hash)
    requires goal !in marked && goal !in out
    ensures Grows(marked, out, out + [goal])
  {
    if NoRepeats(out) { AppendNew(out, goal); }
  }

  lemma GrowsTwice(marked: set<Hash>, out: seq<Hash>, more: seq<Hash>, r: seq<Hash>)
    requires Grows(marked, out, more) && Grows(marked, more, r)
    ensures Grows(marked, out, r)
  {
  }

  // It only appends, never twice, and only what goal reaches.
  lemma {:induction false} PickedGrows(held: set<Hash>, marked: set<Hash>, from: Hash, goal: Hash, isTree: bool,
        out: seq<Hash>)
    requires Picked(held, marked, from, goal, isTree, out).Some?
    ensures var r := Picked(held, marked, from, goal, isTree, out).value;
            Grows(marked, out, r) && forall x :: x in r && x !in out ==> x in Reach(goal)
    decreases goal
  {
    if from == goal || goal in marked || goal in out {
    } else {
      GrowsOne(marked, out, goal);
      if isTree {
        var begun := out + [goal];
        PickedAllGrows(held, marked, EntriesOf(from), goal.obj.entries, begun);
        var r := Picked(held, marked, from, goal, isTree, out).value;
        GrowsTwice(marked, out, begun, r);
        forall x | x in r && x !in out ensures x in Reach(goal) {
          if x != goal { AmongTree(x, goal); }
        }
      }
    }
  }

  lemma {:induction false} PickedAllGrows(held: set<Hash>, marked: set<Hash>, was: seq<Entry>, now: seq<Entry>,
        out: seq<Hash>)
    requires PickedAll(held, marked, was, now, out).Some?
    ensures var r := PickedAll(held, marked, was, now, out).value;
            Grows(marked, out, r) && forall x :: x in r && x !in out ==> Among(x, now)
    decreases now
  {
    if now != [] {
      var rest := From(was, now[0]);
      PickedGrows(held, marked, Standing(rest, now[0]), now[0].hash, now[0].mode.Dir?, out);
      var more := Picked(held, marked, Standing(rest, now[0]), now[0].hash, now[0].mode.Dir?, out).value;
      PickedAllGrows(held, marked, rest, now[1..], more);
      var r := PickedAll(held, marked, was, now, out).value;
      GrowsTwice(marked, out, more, r);
      forall x | x in r && x !in out ensures Among(x, now) {
        AmongLater(x, now);
      }
    }
  }

  // What the client holds: closed under reaching.
  ghost predicate Down(safe: set<Hash>) {
    forall x :: x in safe ==> Reach(x) <= safe
  }

  // Selected objects are accounted for in full, save those still being
  // descended, which lie above anything of rank below bound.
  ghost predicate Settled(out: seq<Hash>, safe: set<Hash>, bound: nat) {
    forall x :: x in out ==> Covered(x, safe, out) || Rank(x) >= bound
  }

  lemma CoveredGrows(h: Hash, safe: set<Hash>, out: seq<Hash>, more: seq<Hash>)
    requires Covered(h, safe, out) && out <= more
    ensures Covered(h, safe, more)
  {
    forall x | x in Reach(h) ensures x in safe || x in more {
      if x in out {
        var i :| 0 <= i < |out| && out[i] == x;
        assert more[i] == x;
      }
    }
  }

  // Everything that came into the selection on the way from out to r is there
  // whole.
  ghost predicate NewCovered(out: seq<Hash>, safe: set<Hash>, r: seq<Hash>) {
    forall x :: x in r && x !in out ==> Covered(x, safe, r)
  }

  ghost predicate AllBelow(es: seq<Entry>, bound: nat) {
    forall k :: 0 <= k < |es| ==> KindMatches(es[k]) && Sound(es[k].hash) && Rank(es[k].hash) < bound
  }

  lemma AllBelowLater(es: seq<Entry>, bound: nat)
    requires es != [] && AllBelow(es, bound)
    ensures KindMatches(es[0]) && Sound(es[0].hash) && Rank(es[0].hash) < bound && AllBelow(es[1..], bound)
  {
  }

  lemma TreeBelow(goal: Hash)
    requires IsTree(goal) && Sound(goal)
    ensures AllBelow(goal.obj.entries, Rank(goal))
  {
  }

  ghost predicate AllSafe(es: seq<Entry>, safe: set<Hash>) {
    forall k :: 0 <= k < |es| ==> es[k].hash in safe
  }

  lemma AllSafeFrom(was: seq<Entry>, e: Entry, safe: set<Hash>)
    requires AllSafe(was, safe)
    ensures AllSafe(From(was, e), safe)
    ensures Standing(From(was, e), e) != Zero ==> Standing(From(was, e), e) in safe
  {
  }

  ghost predicate AllCovered(es: seq<Entry>, safe: set<Hash>, r: seq<Hash>) {
    forall k :: 0 <= k < |es| ==> Covered(es[k].hash, safe, r)
  }

  lemma AllCoveredFirst(es: seq<Entry>, safe: set<Hash>, r: seq<Hash>)
    requires es != [] && Covered(es[0].hash, safe, r) && AllCovered(es[1..], safe, r)
    ensures AllCovered(es, safe, r)
  {
    forall k | 0 <= k < |es| ensures Covered(es[k].hash, safe, r) {
      if k > 0 {
        assert Covered(es[1..][k - 1].hash, safe, r);
      }
    }
  }

  // A tree is covered once it is selected and all it names is covered.
  lemma CoveredTree(goal: Hash, safe: set<Hash>, r: seq<Hash>)
    requires IsTree(goal) && goal in r && AllCovered(goal.obj.entries, safe, r)
    ensures Covered(goal, safe, r)
  {
    forall x | x in Reach(goal) ensures x in safe || x in r {
      if x != goal {
        var k :| 0 <= k < |goal.obj.entries| && x in Reach(goal.obj.entries[k].hash);
        assert Covered(goal.obj.entries[k].hash, safe, r);
      }
    }
  }

  lemma NewCoveredTwice(out: seq<Hash>, safe: set<Hash>, more: seq<Hash>, r: seq<Hash>)
    requires NewCovered(out, safe, more) && NewCovered(more, safe, r) && more <= r
    ensures NewCovered(out, safe, r)
  {
    forall x | x in r && x !in out ensures Covered(x, safe, r) {
      if x in more { CoveredGrows(x, safe, more, r); }
    }
  }

  lemma SettledGrows(out: seq<Hash>, safe: set<Hash>, more: seq<Hash>, bound: nat)
    requires Settled(out, safe, bound) && NewCovered(out, safe, more) && out <= more
    ensures Settled(more, safe, bound)
  {
    forall x | x in more ensures Covered(x, safe, more) || Rank(x) >= bound {
      if x in out && Covered(x, safe, out) { CoveredGrows(x, safe, out, more); }
    }
  }

  lemma EntriesReached(from: Hash)
    ensures forall i :: 0 <= i < |EntriesOf(from)| ==> EntriesOf(from)[i].hash in Reach(from)
  {
    forall i | 0 <= i < |EntriesOf(from)| ensures EntriesOf(from)[i].hash in Reach(from) {
      assert EntriesOf(from)[i].hash in Reach(EntriesOf(from)[i].hash);
      ReachBelow(from, i, EntriesOf(from)[i].hash);
    }
  }

  // Never short: pruning an object first met against another baseline loses
  // nothing, because whatever was selected was selected whole.
  lemma {:induction false} PickedCovers(held: set<Hash>, marked: set<Hash>, from: Hash, goal: Hash, isTree: bool,
        out: seq<Hash>, safe: set<Hash>)
    requires Picked(held, marked, from, goal, isTree, out).Some?
    requires isTree <==> IsTree(goal)
    requires Sound(goal)
    requires Down(safe) && marked <= safe && (from != Zero ==> from in safe) && goal != Zero
    requires forall x :: x in out ==> Covered(x, safe, out) || Rank(x) > Rank(goal)
    ensures var r := Picked(held, marked, from, goal, isTree, out).value;
            Covered(goal, safe, r) && NewCovered(out, safe, r)
    decreases goal
  {
    if from == goal || goal in marked {
      SafeCovers(goal, safe, out);
    } else if goal in out {
    } else if isTree {
      var begun := out + [goal];
      BegunSettled(goal, safe, out);
      EntriesReached(from);
      TreeBelow(goal);
      PickedAllCovers(held, marked, EntriesOf(from), goal.obj.entries, begun, safe, Rank(goal));
      PickedAllGrows(held, marked, EntriesOf(from), goal.obj.entries, begun);
      TreeCovers(goal, safe, out, Picked(held, marked, from, goal, isTree, out).value);
    } else {
      BlobCovers(goal, safe, out);
    }
  }

  lemma SafeCovers(goal: Hash, safe: set<Hash>, out: seq<Hash>)
    requires Down(safe) && goal in safe
    ensures Covered(goal, safe, out)
  {
  }

  lemma BlobCovers(goal: Hash, safe: set<Hash>, out: seq<Hash>)
    requires !IsTree(goal)
    ensures Covered(goal, safe, out + [goal]) && NewCovered(out, safe, out + [goal])
  {
    assert (out + [goal])[|out|] == goal;
  }

  lemma TreeCovers(goal: Hash, safe: set<Hash>, out: seq<Hash>, r: seq<Hash>)
    requires IsTree(goal) && out + [goal] <= r
    requires AllCovered(goal.obj.entries, safe, r) && NewCovered(out + [goal], safe, r)
    ensures Covered(goal, safe, r) && NewCovered(out, safe, r)
  {
    assert r[|out|] == goal;
    CoveredTree(goal, safe, r);
  }

  // Selecting a tree before anything it names has been selected.
  lemma BegunSettled(goal: Hash, safe: set<Hash>, out: seq<Hash>)
    requires forall x :: x in out ==> Covered(x, safe, out) || Rank(x) > Rank(goal)
    ensures Settled(out + [goal], safe, Rank(goal))
  {
    var begun := out + [goal];
    forall x | x in begun ensures Covered(x, safe, begun) || Rank(x) >= Rank(goal) {
      if x in out && Covered(x, safe, out) { CoveredGrows(x, safe, out, begun); }
    }
  }

  lemma {:induction false} PickedAllCovers(held: set<Hash>, marked: set<Hash>, was: seq<Entry>, now: seq<Entry>,
        out: seq<Hash>, safe: set<Hash>, bound: nat)
    requires PickedAll(held, marked, was, now, out).Some?
    requires AllBelow(now, bound) && AllSafe(was, safe)
    requires Down(safe) && marked <= safe
    requires Settled(out, safe, bound)
    ensures var r := PickedAll(held, marked, was, now, out).value;
            AllCovered(now, safe, r) && NewCovered(out, safe, r)
    decreases now
  {
    if now != [] {
      var e := now[0];
      var rest := From(was, e);
      var before := Standing(rest, e);
      AllBelowLater(now, bound);
      AllSafeFrom(was, e, safe);
      PickedCovers(held, marked, before, e.hash, e.mode.Dir?, out, safe);
      PickedGrows(held, marked, before, e.hash, e.mode.Dir?, out);
      var more := Picked(held, marked, before, e.hash, e.mode.Dir?, out).value;
      SettledGrows(out, safe, more, bound);
      PickedAllCovers(held, marked, rest, now[1..], more, safe, bound);
      PickedAllGrows(held, marked, rest, now[1..], more);
      var r := PickedAll(held, marked, was, now, out).value;
      CoveredGrows(e.hash, safe, more, r);
      NewCoveredTwice(out, safe, more, r);
      AllCoveredFirst(now, safe, r);
    }
  }

  ghost predicate NamedFrom(out: seq<Hash>, at: nat) {
    forall i :: at <= i < |out| ==> NamedBefore(out, i)
  }

  lemma NamedGrows(out: seq<Hash>, more: seq<Hash>, i: nat)
    requires out <= more && i < |out| && NamedBefore(out, i)
    ensures NamedBefore(more, i)
  {
    var j :| 0 <= j < i && Names(out[j], out[i]);
    assert Names(more[j], more[i]);
  }

  // Every object but the first is appended after a tree that names it.
  lemma {:induction false} PickedNamed(held: set<Hash>, marked: set<Hash>, from: Hash, goal: Hash, isTree: bool,
        out: seq<Hash>)
    requires Picked(held, marked, from, goal, isTree, out).Some?
    ensures var r := Picked(held, marked, from, goal, isTree, out).value;
            && NamedFrom(r, |out| + 1)
            && (|r| > |out| ==> r[|out|] == goal)
    decreases goal
  {
    if isTree && !(from == goal || goal in marked || goal in out) {
      forall k | 0 <= k < |goal.obj.entries| ensures Names(goal, goal.obj.entries[k].hash) {}
      PickedAllGrows(held, marked, EntriesOf(from), goal.obj.entries, out + [goal]);
      PickedAllNamed(held, marked, EntriesOf(from), goal.obj.entries, out + [goal], |out|);
    }
  }

  lemma {:induction false} PickedAllNamed(held: set<Hash>, marked: set<Hash>, was: seq<Entry>, now: seq<Entry>,
        out: seq<Hash>, at: nat)
    requires PickedAll(held, marked, was, now, out).Some?
    requires at < |out| && NamedFrom(out, at + 1)
    requires forall k :: 0 <= k < |now| ==> Names(out[at], now[k].hash)
    ensures NamedFrom(PickedAll(held, marked, was, now, out).value, at + 1)
    decreases now
  {
    if now != [] {
      var e := now[0];
      var rest := From(was, e);
      PickedNamed(held, marked, Standing(rest, e), e.hash, e.mode.Dir?, out);
      PickedGrows(held, marked, Standing(rest, e), e.hash, e.mode.Dir?, out);
      var more := Picked(held, marked, Standing(rest, e), e.hash, e.mode.Dir?, out).value;
      forall i | at + 1 <= i < |more| ensures NamedBefore(more, i) {
        if i < |out| {
          assert NamedBefore(out, i);
          NamedGrows(out, more, i);
        } else if i == |out| {
          assert Names(more[at], more[i]);
        }
      }
      PickedAllNamed(held, marked, rest, now[1..], more, at);
    }
  }

  ghost predicate MovedAmong(x: Hash, was: seq<Entry>, now: seq<Entry>) {
    exists k :: 0 <= k < |now| && x in Moved(Counterpart(was, now[k]), now[k].hash)
  }

  lemma MovedLater(x: Hash, was: seq<Entry>, now: seq<Entry>)
    requires Canonical(was) && Canonical(now) && now != []
    requires MovedAmong(x, From(was, now[0]), now[1..])
    ensures MovedAmong(x, was, now)
  {
    var rest, later := From(was, now[0]), now[1..];
    var k :| 0 <= k < |later| && x in Moved(Counterpart(rest, later[k]), later[k].hash);
    MovedAt(x, was, now, k + 1);
  }

  lemma MovedAt(x: Hash, was: seq<Entry>, now: seq<Entry>, k: nat)
    requires Canonical(was) && Canonical(now) && 0 < k < |now|
    requires x in Moved(Counterpart(From(was, now[0]), now[k]), now[k].hash)
    ensures MovedAmong(x, was, now)
  {
    var e := now[k];
    ScanExact(was, now[0], e);
    assert Counterpart(From(was, now[0]), e) == Counterpart(was, e);
  }

  // On well-formed trees nothing outside Moved is ever selected.
  lemma {:induction false} PickedMoved(held: set<Hash>, marked: set<Hash>, from: Hash, goal: Hash, isTree: bool,
        out: seq<Hash>)
    requires Picked(held, marked, from, goal, isTree, out).Some?
    requires isTree <==> IsTree(goal)
    requires WellFormed(from) && WellFormed(goal)
    ensures forall x :: x in Picked(held, marked, from, goal, isTree, out).value && x !in out ==> x in Moved(from, goal)
    decreases goal
  {
    if isTree && !(from == goal || goal in marked || goal in out) {
      var was, now, begun := EntriesOf(from), goal.obj.entries, out + [goal];
      PickedAllMoved(held, marked, was, now, begun);
      forall x | x in PickedAll(held, marked, was, now, begun).value && x !in out
        ensures x in Moved(from, goal)
      {
        if x != goal {
          assert MovedAmong(x, was, now);
        }
      }
    }
  }

  lemma {:induction false} PickedAllMoved(held: set<Hash>, marked: set<Hash>, was: seq<Entry>, now: seq<Entry>,
        out: seq<Hash>)
    requires PickedAll(held, marked, was, now, out).Some?
    requires Canonical(was) && Canonical(now)
    requires forall k :: 0 <= k < |was| ==> WellFormed(was[k].hash)
    requires forall k :: 0 <= k < |now| ==> KindMatches(now[k]) && WellFormed(now[k].hash)
    ensures forall x :: x in PickedAll(held, marked, was, now, out).value && x !in out ==> MovedAmong(x, was, now)
    decreases now
  {
    if now != [] {
      var e := now[0];
      var rest := From(was, e);
      ScanExact(was, e, e);
      PickedMoved(held, marked, Standing(rest, e), e.hash, e.mode.Dir?, out);
      var more := Picked(held, marked, Standing(rest, e), e.hash, e.mode.Dir?, out).value;
      PickedAllMoved(held, marked, rest, now[1..], more);
      forall x | x in PickedAll(held, marked, was, now, out).value && x !in out
        ensures MovedAmong(x, was, now)
      {
        if x !in more {
          MovedLater(x, was, now);
        }
      }
    }
  }

  // ----- The loops -----

  /** Moves the cursor forwards to where e would stand in the older list, and
      reads what stands there. */
  method Advance(was: seq<Entry>, start: nat, e: Entry) returns (cursor: nat, before: Hash)
    requires start <= |was|
    ensures start <= cursor <= |was|
    ensures was[cursor..] == From(was[start..], e)
    ensures before == Standing(was[cursor..], e)
  {
    cursor := start;
    while cursor < |was| && Less(SortName(was[cursor]), SortName(e))
      invariant start <= cursor <= |was|
      invariant From(was[start..], e) == From(was[cursor..], e)
    {
      cursor := cursor + 1;
    }
    before := Zero;
    if cursor < |was| && was[cursor].name == e.name && was[cursor].mode == e.mode {
      before := was[cursor].hash;
    }
  }

  // The seen-set and the selection hold the same, what was marked aside.
  ghost predicate Tracks(seen: set<Hash>, marked: set<Hash>, out: seq<Hash>) {
    forall x :: x in seen <==> x in marked || x in out
  }

  lemma TracksOne(seen: set<Hash>, marked: set<Hash>, out: seq<Hash>, h: Hash)
    requires Tracks(seen, marked, out)
    ensures Tracks(seen + {h}, marked, out + [h])
  {
  }

  /** One step of the comparison: descends the pair (from, goal). */
  method Descend(held: set<Hash>, from: Hash, goal: Hash, isTree: bool, seen: set<Hash>, out: seq<Hash>)
    returns (ok: bool, seen': set<Hash>, out': seq<Hash>)
    requires Tracks(seen, {}, out)
    ensures Picked(held, {}, from, goal, isTree, out) == if ok then Some(out') else None
    ensures Tracks(seen', {}, out')
    decreases goal
  {
    seen', out' := seen, out;
    if from == goal || goal in seen {
      return true, seen', out';
    }
    TracksOne(seen, {}, out, goal);
    seen', out' := seen + {goal}, out + [goal];
    if !isTree {
      return true, seen', out';
    }
    if !Reads(held, goal) {
      return false, seen', out';
    }
    var now := goal.obj.entries;
    if from != Zero && !Reads(held, from) {
      return false, seen', out';
    }
    ok, seen', out' := DescendAll(held, EntriesOf(from), now, seen', out');
  }

  /** The lists of the pair in step, each entry against what stood in its
      place. */
  method DescendAll(held: set<Hash>, was: seq<Entry>, now: seq<Entry>, seen: set<Hash>, out: seq<Hash>)
    returns (ok: bool, seen': set<Hash>, out': seq<Hash>)
    requires Tracks(seen, {}, out)
    ensures PickedAll(held, {}, was, now, out) == if ok then Some(out') else None
    ensures Tracks(seen', {}, out')
    decreases now, 0
  {
    seen', out' := seen, out;
    ghost var result := PickedAll(held, {}, was, now, out);
    var cursor, i := 0, 0;
    ghost var rest, left := was, now;
    while i < |now|
      invariant 0 <= i <= |now| && 0 <= cursor <= |was|
      invariant Tracks(seen', {}, out')
      invariant rest == was[cursor..] && left == now[i..]
      invariant result == PickedAll(held, {}, rest, left, out')
      decreases |now| - i
    {
      var e := now[i];
      var before;
      cursor, before := Advance(was, cursor, e);
      rest, left := From(rest, e), left[1..];
      var fine;
      fine, seen', out' := Descend(held, before, e.hash, e.mode == Dir, seen', out');
      if !fine {
        return false, seen', out';
      }
      i := i + 1;
    }
    return true, seen', out';
  }

  /** Selects by comparing entries of equal name and mode; complete, though it
      may repeat what the client has elsewhere. */
  method SelectCompared(held: set<Hash>, from: Hash, goal: Hash) returns (r: Result<seq<Hash>>)
    requires Closed(held) && Reads(held, from)
    ensures r.Ok? <==> Reads(held, goal)
    ensures r.Ok? ==> Complete(from, goal, r.value)
    ensures r.Ok? && WellFormed(from) && WellFormed(goal) ==> forall x :: x in r.value ==> x in Moved(from, goal)
  {
    var ok, seen, out := Descend(held, from, goal, true, {}, []);
    if !ok {
      if Reads(held, goal) { PickedSucceeds(held, {}, from, goal, true, []); }
      return Err;
    }
    ComparedIsComplete(held, from, goal);
    return Ok(out);
  }

  lemma ComparedIsComplete(held: set<Hash>, from: Hash, goal: Hash)
    requires Closed(held) && Reads(held, from)
    requires Picked(held, {}, from, goal, true, []).Some?
    ensures Reads(held, goal)
    ensures Complete(from, goal, Picked(held, {}, from, goal, true, []).value)
    ensures WellFormed(from) && WellFormed(goal) ==>
              forall x :: x in Picked(held, {}, from, goal, true, []).value ==> x in Moved(from, goal)
  {
    ClosedHoldsAll(held, goal);
    forall x | x in Reach(from) ensures Reach(x) <= Reach(from) {
      ReachTransitive(from, x);
    }
    PickedGrows(held, {}, from, goal, true, []);
    PickedCovers(held, {}, from, goal, true, [], Reach(from));
    PickedNamed(held, {}, from, goal, true, []);
    if WellFormed(from) && WellFormed(goal) {
      PickedMoved(held, {}, from, goal, true, []);
    }
  }

  /** Walks the graph at h, parents first, visiting each object that is not
      marked: it is marked and selected. */
  method Walk(held: set<Hash>, h: Hash, isTree: bool, ghost marked: set<Hash>, live: set<Hash>, out: seq<Hash>)
    returns (ok: bool, live': set<Hash>, out': seq<Hash>)
    requires Closed(held)
    requires Tracks(live, marked, out)
    ensures h != Zero ==> Picked(held, marked, Zero, h, isTree, out) == if ok then Some(out') else None
    ensures h == Zero && isTree && h !in live ==> !ok
    ensures Tracks(live', marked, out')
    decreases h
  {
    live', out' := live, out;
    if h in live {
      return true, live', out';
    }
    TracksOne(live, marked, out, h);
    live', out' := live + {h}, out + [h];
    if !isTree {
      return true, live', out';
    }
    if !Reads(held, h) {
      return false, live', out';
    }
    ok, live', out' := WalkAll(held, h.obj.entries, marked, live', out');
  }

  method WalkAll(held: set<Hash>, entries: seq<Entry>, ghost marked: set<Hash>, live: set<Hash>, out: seq<Hash>)
    returns (ok: bool, live': set<Hash>, out': seq<Hash>)
    requires Closed(held) && AllHeld(held, entries) && Tracks(live, marked, out)
    ensures PickedAll(held, marked, [], entries, out) == if ok then Some(out') else None
    ensures Tracks(live', marked, out')
    decreases entries, 0
  {
    live', out' := live, out;
    ghost var result, left := PickedAll(held, marked, [], entries, out), entries;
    var i := 0;
    while i < |entries|
      invariant 0 <= i <= |entries| && left == entries[i..]
      invariant Tracks(live', marked, out')
      invariant result == PickedAll(held, marked, [], left, out')
      decreases |entries| - i
    {
      var e := entries[i];
      assert From([], e) == [] && Standing([], e) == Zero;
      assert KindMatches(e) && left[0] == e;
      left := left[1..];
      var fine;
      fine, live', out' := Walk(held, e.hash, e.mode == Dir, marked, live', out');
      if !fine {
        return false, live', out';
      }
      i := i + 1;
    }
    return true, live', out';
  }

  lemma WalkIsExact(held: set<Hash>, base: set<Hash>, h: Hash)
    requires Closed(held) && Down(base) && h != Zero
    requires Picked(held, base, Zero, h, true, []).Some?
    ensures h in base || Reads(held, h)
    ensures var out := Picked(held, base, Zero, h, true, []).value;
            && NoRepeats(out)
            && (forall x :: x in out <==> x in Reach(h) && x !in base)
            && forall i :: 0 <= i < |out| && out[i] != h ==> NamedBefore(out, i)
  {
    var out := Picked(held, base, Zero, h, true, []).value;
    PickedGrows(held, base, Zero, h, true, []);
    if h !in base {
      ClosedHoldsAll(held, h);
      PickedCovers(held, base, Zero, h, true, [], base);
      PickedNamed(held, base, Zero, h, true, []);
    }
  }

  /** Every object reachable from root; nothing for the zero hash. */
  method Reachable(held: set<Hash>, root: Hash) returns (r: Result<set<Hash>>)
    requires Closed(held)
    ensures r.Ok? <==> root == Zero || Reads(held, root)
    ensures r.Ok? ==> r.value == Base(root)
  {
    if root == Zero {
      return Ok({});
    }
    var ok, live, out := Walk(held, root, true, {}, {}, []);
    if !ok {
      if Reads(held, root) { PickedSucceeds(held, {}, Zero, root, true, []); }
      return Err;
    }
    WalkIsExact(held, {}, root);
    assert live == Reach(root);
    return Ok(live);
  }

  /** Selects exactly what the newer tree reaches and the older does not. */
  method SelectExact(held: set<Hash>, from: Hash, goal: Hash) returns (r: Result<seq<Hash>>)
    requires Closed(held)
    ensures r.Ok? <==> (from == Zero || Reads(held, from)) && (goal in Base(from) || Reads(held, goal))
    ensures r.Ok? ==> Complete(from, goal, r.value) && Exact(from, goal, r.value)
  {
    var base := Reachable(held, from);
    if base.Err? {
      return Err;
    }
    assert Down(base.value) by {
      forall x | x in base.value ensures Reach(x) <= base.value {
        ReachTransitive(from, x);
      }
    }
    if from != Zero {
      ClosedHoldsAll(held, from);
      ReachNotZero(from);
    }
    var ok, live, out := Walk(held, goal, true, base.value, base.value, []);
    if !ok {
      if Reads(held, goal) { PickedSucceeds(held, base.value, Zero, goal, true, []); }
      return Err;
    }
    WalkIsExact(held, base.value, goal);
    return Ok(out);
  }

  /** A complete selection from one tree to another, replaced by the exact one
      where it would be over half the store. */
  method SelectSince(held: set<Hash>, from: Hash, goal: Hash) returns (r: Result<seq<Hash>>)
    requires Closed(held)
    ensures r.Ok? <==> (from == Zero || Reads(held, from)) && Reads(held, goal)
    ensures r.Ok? ==> Complete(from, goal, r.value)
    ensures r.Ok? && (from == Zero || |r.value| > |held| / 2) ==> Exact(from, goal, r.value)
    ensures r.Ok? && from != Zero && WellFormed(from) && WellFormed(goal) ==>
              forall x :: x in r.value ==> x in Moved(from, goal)
  {
    if from == Zero {
      r := SelectExact(held, from, goal);
      return;
    }
    if !Reads(held, from) {
      return Err;
    }
    var compared := SelectCompared(held, from, goal);
    if compared.Err? {
      return Err;
    }
    if |compared.value| <= |held| / 2 {
      return compared;
    }
    r := SelectExact(held, from, goal);
  }

  // Where both select, the exact selection is the smaller.
  lemma ExactIsLeast(from: Hash, goal: Hash, exact: seq<Hash>, other: seq<Hash>)
    requires Exact(from, goal, exact) && Complete(from, goal, other)
    ensures forall x :: x in exact ==> x in other
  {
    assert Covered(goal, Base(from), other);
  }
}
