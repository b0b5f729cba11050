// SetHead taken apart: it lists the ref's members under one lock, moves the
// head under another, and wakes those it listed one by one. Whoever joins in
// between is not listed, and may have read the head before it moved.

module Snapshot {
  import opened Basics

  /** Where the goroutine serving a subscriber stands, and how many moves the
      head it read had behind it. */
  datatype Phase = Serving | Loaded(at: nat) | Parked(at: nat)

  /** A member: its wake-up signal, and how many lists had been made when it
      joined. */
  datatype Follower = Follower(phase: Phase, token: bool, since: nat)

  /** A SetHead under way: whom it listed, which list that was, the move it has
      made, if any, and whom it has still to wake for that. */
  datatype Call = Call(following: set<nat>, number: nat, made: Option<nat>, left: set<nat>)

  /** A move of the head, by the list of the call that made it. */
  datatype Move = Move(following: set<nat>, number: nat)

  datatype State = State(moves: seq<Move>, lists: nat, known: set<nat>, subs: map<nat, Follower>, calls: map<nat, Call>)

  const Start := State([], 0, {}, map[], map[])

  datatype Step =
    | Join(c: nat)
    | Leave(c: nat)
    | Load(c: nat)
    | Park(c: nat)
    | Wake(c: nat)
    | List(k: nat)
    | Advance(k: nat)
    | Refuse(k: nat)
    | Rouse(k: nat, c: nat)
    | Return(k: nat)

  predicate Enabled(s: State, step: Step) {
    match step
    case Join(c) => c !in s.known
    case Leave(c) => c in s.subs
    case Load(c) => c in s.subs && s.subs[c].phase.Serving?
    case Park(c) => c in s.subs && s.subs[c].phase.Loaded?
    case Wake(c) => c in s.subs && s.subs[c].phase.Parked? && s.subs[c].token
    case List(k) => k !in s.calls
    case Advance(k) => k in s.calls && s.calls[k].made.None?
    case Refuse(k) => k in s.calls && s.calls[k].made.None?
    case Rouse(k, c) => k in s.calls && s.calls[k].made.Some? && c in s.calls[k].left
    case Return(k) => k in s.calls && s.calls[k].made.Some? && s.calls[k].left == {}
  }

  function After(s: State, step: Step): State
    requires Enabled(s, step)
  {
    match step
    case Join(c) => s.(known := s.known + {c}, subs := s.subs[c := Follower(Serving, false, s.lists)])
    case Leave(c) => s.(subs := s.subs - {c})
    case Load(c) => s.(subs := s.subs[c := s.subs[c].(phase := Loaded(|s.moves|))])
    case Park(c) => s.(subs := s.subs[c := s.subs[c].(phase := Parked(s.subs[c].phase.at))])
    case Wake(c) => s.(subs := s.subs[c := s.subs[c].(phase := Serving, token := false)])
    case List(k) => s.(lists := s.lists + 1, calls := s.calls[k := Call(s.subs.Keys, s.lists, None, {})])
    case Advance(k) =>
      var call := s.calls[k];
      s.(moves := s.moves + [Move(call.following, call.number)],
         calls := s.calls[k := call.(made := Some(|s.moves|), left := call.following)])
    case Refuse(k) => s.(calls := s.calls - {k})
    case Rouse(k, c) =>
      s.(calls := s.calls[k := s.calls[k].(left := s.calls[k].left - {c})],
         subs := if c in s.subs then s.subs[c := s.subs[c].(token := true)] else s.subs)
    case Return(k) => s.(calls := s.calls - {k})
  }

  predicate Run(s: State, steps: seq<Step>)
    decreases |steps|
  {
    steps == [] || (Enabled(s, steps[0]) && Run(After(s, steps[0]), steps[1..]))
  }

  function Final(s: State, steps: seq<Step>): State
    requires Run(s, steps)
    decreases |steps|
  {
    if steps == [] then s else Final(After(s, steps[0]), steps[1..])
  }

  // ----- What every reachable state has -----

  // The call has made this move and has yet to wake c for it.
  predicate Owes(call: Call, m: nat, c: nat) {
    call.made == Some(m) && c in call.left
  }

  // Whoever is listed and has not read the head since is told, or about to be.
  predicate ToldOf(s: State, m: nat, c: nat)
    requires m < |s.moves| && c in s.subs
  {
    !s.subs[c].phase.Serving? && s.subs[c].phase.at <= m && c in s.moves[m].following ==>
      s.subs[c].token || exists k :: k in s.calls && Owes(s.calls[k], m, c)
  }

  // The members there are now were listed just when they had joined.
  predicate Listed(s: State, following: set<nat>, number: nat) {
    && following <= s.known && number < s.lists
    && forall c :: c in s.subs ==> (c in following <==> s.subs[c].since <= number)
  }

  predicate SubOk(s: State, c: nat)
    requires c in s.subs
  {
    && c in s.known && s.subs[c].since <= s.lists
    && (!s.subs[c].phase.Serving? ==> s.subs[c].phase.at <= |s.moves|)
  }

  predicate CallOk(s: State, call: Call) {
    && Listed(s, call.following, call.number) && call.left <= call.following
    && (call.made.Some? ==>
          call.made.value < |s.moves| && s.moves[call.made.value] == Move(call.following, call.number))
  }

  ghost predicate Inv(s: State) {
    && (forall c :: c in s.subs ==> SubOk(s, c))
    && (forall k :: k in s.calls ==> CallOk(s, s.calls[k]))
    && (forall m :: 0 <= m < |s.moves| ==> Listed(s, s.moves[m].following, s.moves[m].number))
    && (forall m, c :: 0 <= m < |s.moves| && c in s.subs ==> ToldOf(s, m, c))
  }

  lemma ListedKeeps(s: State, step: Step, following: set<nat>, number: nat)
    requires Inv(s) && Enabled(s, step) && Listed(s, following, number)
    ensures Listed(After(s, step), following, number)
  {
  }

  lemma SubsKeep(s: State, step: Step)
    requires Inv(s) && Enabled(s, step)
    ensures forall c :: c in After(s, step).subs ==> SubOk(After(s, step), c)
  {
  }

  lemma CallsKeep(s: State, step: Step)
    requires Inv(s) && Enabled(s, step)
    ensures forall k :: k in After(s, step).calls ==> CallOk(After(s, step), After(s, step).calls[k])
  {
    var t := After(s, step);
    forall k | k in t.calls ensures CallOk(t, t.calls[k]) {
      if k in s.calls {
        assert CallOk(s, s.calls[k]);
        ListedKeeps(s, step, s.calls[k].following, s.calls[k].number);
      }
    }
  }

  lemma MovesKeep(s: State, step: Step)
    requires Inv(s) && Enabled(s, step)
    ensures forall m :: 0 <= m < |After(s, step).moves| ==>
              Listed(After(s, step), After(s, step).moves[m].following, After(s, step).moves[m].number)
  {
    var t := After(s, step);
    forall m | 0 <= m < |t.moves| ensures Listed(t, t.moves[m].following, t.moves[m].number) {
      if m < |s.moves| {
        assert Listed(s, s.moves[m].following, s.moves[m].number);
      } else {
        assert CallOk(s, s.calls[step.k]);
      }
      ListedKeeps(s, step, t.moves[m].following, t.moves[m].number);
    }
  }

  // The step that makes a move owes it to everyone it listed.
  lemma AdvanceOwes(s: State, k: nat, c: nat)
    requires Inv(s) && Enabled(s, Advance(k)) && c in s.subs
    ensures ToldOf(After(s, Advance(k)), |s.moves|, c)
  {
    var t := After(s, Advance(k));
    if c in t.moves[|s.moves|].following { assert Owes(t.calls[k], |s.moves|, c); }
  }

  // A member is told by being woken, and otherwise whoever owed it still does.
  lemma ToldKeeps(s: State, step: Step, m: nat, c: nat)
    requires Inv(s) && Enabled(s, step) && m < |s.moves| && c in s.subs && c in After(s, step).subs
    ensures ToldOf(After(s, step), m, c)
  {
    var t := After(s, step);
    assert ToldOf(s, m, c) && t.moves[m] == s.moves[m] && SubOk(s, c);
    if k :| k in s.calls && Owes(s.calls[k], m, c) {
      assert !t.subs[c].token ==> k in t.calls && Owes(t.calls[k], m, c);
    }
  }

  lemma StepKeeps(s: State, step: Step)
    requires Inv(s) && Enabled(s, step)
    ensures Inv(After(s, step))
  {
    var t := After(s, step);
    SubsKeep(s, step);
    CallsKeep(s, step);
    MovesKeep(s, step);
    forall m, c | 0 <= m < |t.moves| && c in t.subs ensures ToldOf(t, m, c) {
      if m < |s.moves| && c in s.subs { ToldKeeps(s, step, m, c); }
      if m == |s.moves| { AdvanceOwes(s, step.k, c); }
    }
  }

  lemma {:induction false} RunKeeps(s: State, steps: seq<Step>)
    requires Inv(s) && Run(s, steps)
    ensures Inv(Final(s, steps))
    decreases |steps|
  {
    if steps != [] {
      StepKeeps(s, steps[0]);
      RunKeeps(After(s, steps[0]), steps[1..]);
    }
  }

  // ----- Whom a move passes by -----

  /** Parked, with no wake-up pending and nobody about to send one. */
  ghost predicate Idle(s: State, c: nat) {
    && c in s.subs && s.subs[c].phase.Parked? && !s.subs[c].token
    && forall k :: k in s.calls && s.calls[k].made.Some? ==> c !in s.calls[k].left
  }

  // The head it parked at is not the ref's.
  predicate Behind(s: State, c: nat)
    requires c in s.subs && s.subs[c].phase.Parked?
  {
    s.subs[c].phase.at < |s.moves|
  }

  // A move made by a call that had listed the members before c joined.
  predicate Passes(s: State, m: nat, c: nat) {
    m < |s.moves| && c in s.subs && s.moves[m].number < s.subs[c].since
  }

  predicate PassedBy(s: State, c: nat)
    requires c in s.subs && s.subs[c].phase.Parked?
  {
    forall m :: s.subs[c].phase.at <= m < |s.moves| ==> Passes(s, m, c)
  }

  lemma InvPassedBy(s: State, c: nat)
    requires Inv(s) && Idle(s, c)
    ensures PassedBy(s, c)
  {
    forall m | s.subs[c].phase.at <= m < |s.moves| ensures Passes(s, m, c) {
      assert ToldOf(s, m, c) && Listed(s, s.moves[m].following, s.moves[m].number);
    }
  }

  // Nobody idle is behind but for moves that passed it by: it had joined after
  // their list and read the head before them.
  lemma IdlePassedBy(steps: seq<Step>, c: nat)
    requires Run(Start, steps) && Idle(Final(Start, steps), c)
    ensures PassedBy(Final(Start, steps), c)
  {
    RunKeeps(Start, steps);
    InvPassedBy(Final(Start, steps), c);
  }

  /** Some SetHead has listed the members and not moved the head yet. */
  ghost predicate Between(s: State) {
    exists k :: k in s.calls && s.calls[k].made.None?
  }

  /** These steps leave c behind with nothing on its way. */
  ghost predicate LeaveBehind(s: State, steps: seq<Step>, c: nat) {
    Run(s, steps) && Idle(Final(s, steps), c) && Behind(Final(s, steps), c)
  }

  // What holds of a member from its joining on, if no SetHead was between its
  // list and its move then.
  ghost predicate Watched(s: State, c: nat, from: nat) {
    c in s.subs ==>
      && (!s.subs[c].phase.Serving? ==> s.subs[c].phase.at >= from)
      && (forall k :: k in s.calls && s.calls[k].made.None? ==> s.calls[k].number >= s.subs[c].since)
      && s.subs[c].since <= s.lists && from <= |s.moves| && c in s.known
      && forall m :: from <= m ==> !Passes(s, m, c)
  }

  lemma {:induction false} WatchedKeeps(s: State, steps: seq<Step>, c: nat, from: nat)
    requires Run(s, steps) && Watched(s, c, from) && c in s.known
    ensures Watched(Final(s, steps), c, from)
    decreases |steps|
  {
    if steps != [] {
      var t := After(s, steps[0]);
      forall m | from <= m && c in t.subs ensures !Passes(t, m, c) { assert !Passes(s, m, c); }
      WatchedKeeps(t, steps[1..], c, from);
    }
  }

  // Whoever joins when no call is between its list and its move is never left
  // behind.
  lemma JoinedClear(s: State, c: nat, steps: seq<Step>)
    requires Inv(s) && Enabled(s, Join(c)) && !Between(s)
    ensures !LeaveBehind(After(s, Join(c)), steps, c)
  {
    var joined := After(s, Join(c));
    if Run(joined, steps) {
      var t := Final(joined, steps);
      StepKeeps(s, Join(c));
      RunKeeps(joined, steps);
      assert Watched(joined, c, |joined.moves|);
      WatchedKeeps(joined, steps, c, |joined.moves|);
      if Idle(t, c) {
        InvPassedBy(t, c);
        assert !Passes(t, t.subs[c].phase.at, c);
      }
    }
  }

  // Whoever joins when one is can read the head and park before it moves.
  lemma JoinedBetween(s: State, c: nat, k: nat)
    requires Inv(s) && Enabled(s, Join(c)) && k in s.calls && s.calls[k].made.None?
    ensures LeaveBehind(After(s, Join(c)), [Load(c), Park(c), Advance(k)], c)
  {
    var steps, last := [Load(c), Park(c), Advance(k)], [Advance(k)];
    var joined := After(s, Join(c));
    var loaded := After(joined, Load(c));
    var parked := After(loaded, Park(c));
    var moved := After(parked, Advance(k));
    assert steps[1..] == [Park(c)] + last && steps[1..][1..] == last && last[1..] == [];
    assert Run(moved, last[1..]) && Final(moved, last[1..]) == moved;
    assert Run(parked, last) && Final(parked, last) == moved;
    assert Run(loaded, steps[1..]) && Final(loaded, steps[1..]) == moved;
    forall i | i in moved.calls ensures c !in moved.calls[i].left {
      assert CallOk(s, s.calls[i]) && c !in s.calls[i].following;
    }
  }

  // A subscriber about to join can be left behind exactly when some SetHead has
  // listed the members and not yet moved the head. One that has moved it and is
  // only waking strands nobody.
  lemma LeftBehindIffBetween(before: seq<Step>, c: nat)
    requires Run(Start, before) && Enabled(Final(Start, before), Join(c))
    ensures var s := Final(Start, before);
            (exists steps :: LeaveBehind(After(s, Join(c)), steps, c)) <==> Between(s)
  {
    RunKeeps(Start, before);
    var s := Final(Start, before);
    if Between(s) {
      var k :| k in s.calls && s.calls[k].made.None?;
      JoinedBetween(s, c, k);
    } else {
      forall steps ensures !LeaveBehind(After(s, Join(c)), steps, c) { JoinedClear(s, c, steps); }
    }
  }

  // From the start, for one: a subscriber that joins and reads the head between a
  // list and its move, which then returns.
  const STRANDED := [List(0), Join(0), Load(0), Park(0), Advance(0), Return(0)]

  lemma Strands()
    ensures Run(Start, STRANDED) && Idle(Final(Start, STRANDED), 0) && Behind(Final(Start, STRANDED), 0)
  {
    var a := After(Start, STRANDED[0]);
    var b := After(a, STRANDED[1]);
    var d := After(b, STRANDED[2]);
    var e := After(d, STRANDED[3]);
    var f := After(e, STRANDED[4]);
    var g := After(f, STRANDED[5]);
    assert STRANDED[1..][1..][1..][1..][1..] == [Return(0)];
    assert Run(f, [Return(0)]) && Final(f, [Return(0)]) == g;
    assert STRANDED[1..][1..][1..][1..] == [Advance(0), Return(0)];
    assert Run(e, [Advance(0), Return(0)]) && Final(e, [Advance(0), Return(0)]) == g;
    assert STRANDED[1..][1..][1..] == [Park(0), Advance(0), Return(0)];
    assert Run(d, STRANDED[1..][1..][1..]) && Final(d, STRANDED[1..][1..][1..]) == g;
    assert Run(b, STRANDED[1..][1..]) && Final(b, STRANDED[1..][1..]) == g;
    assert Run(a, STRANDED[1..]) && Final(a, STRANDED[1..]) == g;
  }
}
