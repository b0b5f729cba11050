// When a provider is asked for a ref's objects and when it is given them back,
// as a relation over the critical sections of connect, prepare, forget,
// disconnect, Publish and Unpublish.

module Lifecycle {
  import opened Basics

  /** Where a ref's entry stands. Fresh is in the map with its preparation not
      yet asked for; Settling is the provider having answered; Doomed is a
      preparation that failed, forgotten but still to be told to its members;
      Retiring is its last member gone, Returned the release done. */
  datatype Stage = Fresh | Preparing | Settling(ok: bool) | Ready | Doomed | Retiring | Releasing | Returned | Over

  datatype Entry = Entry(ref: string, published: bool, prepared: bool, stage: Stage, members: set<nat>)

  /** What the provider sees of one ref: whose preparation was asked for, how
      it was answered and whether the answer was used, and whose data is being
      given back. */
  datatype Call =
    | PrepareBegins(e: nat)
    | PrepareEnds(e: nat, installed: bool)
    | ReleaseBegins(e: nat)
    | ReleaseEnds(e: nat)

  /** The refs held, every entry there has been, which entry each connection
      joined, and the calls made, by ref. */
  datatype State = State(refs: map<string, nat>, entries: map<nat, Entry>, joined: map<nat, nat>, log: map<string, seq<Call>>)

  const Start := State(map[], map[], map[], map[])

  datatype Step =
    | Create(c: nat, ref: string, e: nat)
    | Join(c: nat, ref: string)
    | Ask(e: nat)
    | Answer(e: nat, ok: bool)
    | Settle(e: nat, allowed: bool)
    | Leave(c: nat)
    | Release(e: nat)
    | Skip(e: nat)
    | GiveBack(e: nat)
    | Drop(e: nat)
    | Publish(ref: string, e: nat)
    | Withdraw(ref: string)

  function LogOf(s: State, ref: string): seq<Call> {
    if ref in s.log then s.log[ref] else []
  }

  function Logged(s: State, e: nat, call: Call): State
    requires e in s.entries
  {
    var ref := s.entries[e].ref;
    s.(log := s.log[ref := LogOf(s, ref) + [call]])
  }

  function Settled(s: State, e: nat, installed: bool): State
    requires e in s.entries
  {
    s.(entries := s.entries[e := s.entries[e].(prepared := installed, stage := if installed then Ready else Doomed)])
  }

  function Staged(s: State, e: nat, stage: Stage): State
    requires e in s.entries
  {
    s.(entries := s.entries[e := s.entries[e].(stage := stage)])
  }

  predicate Holds(s: State, ref: string, e: nat) {
    ref in s.refs && s.refs[ref] == e
  }

  // A connection may go only once its entry has answered; until then it waits.
  predicate Answered(stage: Stage) {
    stage.Ready? || stage.Doomed?
  }

  predicate Enabled(s: State, step: Step) {
    match step
    case Create(c, ref, e) => c !in s.joined && ref !in s.refs && e !in s.entries
    case Join(c, ref) =>
      && c !in s.joined && ref in s.refs && s.refs[ref] in s.entries
      && s.entries[s.refs[ref]].stage !in {Retiring, Releasing, Returned}
    case Ask(e) => e in s.entries && s.entries[e].stage == Fresh
    case Answer(e, _) => e in s.entries && s.entries[e].stage == Preparing
    case Settle(e, _) => e in s.entries && s.entries[e].stage.Settling?
    case Leave(c) =>
      && c in s.joined && s.joined[c] in s.entries
      && c in s.entries[s.joined[c]].members && Answered(s.entries[s.joined[c]].stage)
    case Release(e) => e in s.entries && s.entries[e].stage == Retiring && s.entries[e].prepared
    case Skip(e) => e in s.entries && s.entries[e].stage == Retiring && !s.entries[e].prepared
    case GiveBack(e) => e in s.entries && s.entries[e].stage == Releasing
    case Drop(e) => e in s.entries && s.entries[e].stage == Returned
    case Publish(ref, e) => ref !in s.refs && e !in s.entries
    case Withdraw(ref) => ref in s.refs && s.refs[ref] in s.entries && s.entries[s.refs[ref]].published
  }

  function Creates(s: State, c: nat, ref: string, e: nat): State {
    s.(refs := s.refs[ref := e], entries := s.entries[e := Entry(ref, false, false, Fresh, {c})], joined := s.joined[c := e])
  }

  function Joins(s: State, c: nat, e: nat): State
    requires e in s.entries
  {
    s.(entries := s.entries[e := s.entries[e].(members := s.entries[e].members + {c})], joined := s.joined[c := e])
  }

  // A preparation that came to nothing is forgotten, if it is still the one
  // held; a refused head is that too, though the provider answered.
  function Settles(s: State, e: nat, installed: bool): State
    requires e in s.entries
  {
    var t := Logged(Settled(s, e, installed), e, PrepareEnds(e, installed));
    if installed then t else Forgotten(t, e)
  }

  function Forgotten(s: State, e: nat): State
    requires e in s.entries
  {
    if Holds(s, s.entries[e].ref, e) then s.(refs := s.refs - {s.entries[e].ref}) else s
  }

  // One member fewer. The entry starts to retire when that leaves none, if it
  // is the provider's and is what its ref names.
  function Leaves(s: State, c: nat, e: nat): State
    requires e in s.entries
  {
    var entry := s.entries[e].(members := s.entries[e].members - {c});
    var last := !entry.published && entry.members == {} && Holds(s, entry.ref, e);
    s.(entries := s.entries[e := if last then entry.(stage := Retiring) else entry])
  }

  function Publishes(s: State, ref: string, e: nat): State {
    s.(refs := s.refs[ref := e], entries := s.entries[e := Entry(ref, true, true, Ready, {})])
  }

  function After(s: State, step: Step): State
    requires Enabled(s, step)
  {
    match step
    case Create(c, ref, e) => Creates(s, c, ref, e)
    case Join(c, ref) => Joins(s, c, s.refs[ref])
    case Ask(e) => Logged(Staged(s, e, Preparing), e, PrepareBegins(e))
    case Answer(e, ok) => Staged(s, e, Settling(ok))
    case Settle(e, allowed) => Settles(s, e, s.entries[e].stage.ok && allowed)
    case Leave(c) => Leaves(s, c, s.joined[c])
    case Release(e) => Logged(Staged(s, e, Releasing), e, ReleaseBegins(e))
    case Skip(e) => Staged(s, e, Returned)
    case GiveBack(e) => Logged(Staged(s, e, Returned), e, ReleaseEnds(e))
    case Drop(e) => Forgotten(Staged(s, e, Over), e)
    case Publish(ref, e) => Publishes(s, ref, e)
    case Withdraw(ref) => s.(refs := s.refs - {ref})
  }

  predicate Run(s: State, steps: seq<Step>)
    decreases |steps|
  {
    steps == [] || (Enabled(s, steps[0]) && Run(After(s, steps[0]), steps[1..]))
  }

  function Final(s: State, steps: seq<Step>): State
    requires Run(s, steps)
    decreases |steps|
  {
    if steps == [] then s else Final(After(s, steps[0]), steps[1..])
  }

  // ----- What a provider may count on -----

  /** What a provider owes and is owed for one ref. */
  datatype Duty = Idle | Busy(e: nat) | Lent(e: nat) | Ending(e: nat) | Wrong

  function Observe(d: Duty, call: Call): Duty {
    match call
    case PrepareBegins(e) => if d == Idle then Busy(e) else Wrong
    case PrepareEnds(e, installed) => if d == Busy(e) then (if installed then Lent(e) else Idle) else Wrong
    case ReleaseBegins(e) => if d == Lent(e) then Ending(e) else Wrong
    case ReleaseEnds(e) => if d == Ending(e) then Idle else Wrong
  }

  function Follow(log: seq<Call>): Duty {
    if log == [] then Idle else Observe(Follow(log[..|log| - 1]), log[|log| - 1])
  }

  // ----- What every reachable state has -----

  // What an entry's stage says of its ref's calls so far.
  predicate Agrees(s: State, e: nat)
    requires e in s.entries
  {
    var entry := s.entries[e];
    var duty := Follow(LogOf(s, entry.ref));
    match entry.stage
    case Fresh => Holds(s, entry.ref, e) && !entry.published && duty == Idle
    case Preparing => Holds(s, entry.ref, e) && !entry.published && duty == Busy(e)
    case Settling(_) => Holds(s, entry.ref, e) && !entry.published && duty == Busy(e)
    case Ready => !entry.published ==> entry.prepared && Holds(s, entry.ref, e) && duty == Lent(e) && entry.members != {}
    case Doomed => !entry.published && !Holds(s, entry.ref, e)
    case Retiring => entry.prepared && Holds(s, entry.ref, e) && !entry.published && duty == Lent(e) && entry.members == {}
    case Releasing => Holds(s, entry.ref, e) && !entry.published && duty == Ending(e) && entry.members == {}
    case Returned => Holds(s, entry.ref, e) && !entry.published && duty == Idle && entry.members == {}
    case Over => !Holds(s, entry.ref, e) && !entry.published && entry.members == {}
  }

  predicate MembersAgree(s: State, e: nat)
    requires e in s.entries
  {
    forall c :: c in s.entries[e].members ==> c in s.joined && s.joined[c] == e
  }

  // A ref that is not held, or held by the application, has nothing with the
  // provider.
  predicate QuietUnheld(s: State, ref: string) {
    Follow(LogOf(s, ref)) == Idle
    || (ref in s.refs && s.refs[ref] in s.entries && !s.entries[s.refs[ref]].published)
  }

  // Nobody leaves before the answer, so there is somebody to hear it.
  predicate Waited(entry: Entry) {
    entry.stage.Fresh? || entry.stage.Preparing? || entry.stage.Settling? ==> entry.members != {}
  }

  predicate EntryOk(s: State, e: nat)
    requires e in s.entries
  {
    Agrees(s, e) && MembersAgree(s, e) && Waited(s.entries[e])
  }

  // How far along an entry is; it never goes back.
  function Progress(stage: Stage): nat {
    match stage
    case Fresh => 0
    case Preparing => 1
    case Settling(_) => 2
    case Ready => 3
    case Doomed => 3
    case Retiring => 4
    case Releasing => 5
    case Returned => 6
    case Over => 7
  }

  // How far an entry must have come for a call about it to have been made.
  function Needs(call: Call): nat {
    match call
    case PrepareBegins(_) => 1
    case PrepareEnds(_, _) => 3
    case ReleaseBegins(_) => 5
    case ReleaseEnds(_) => 6
  }

  predicate Reached(stage: Stage, call: Call) {
    Progress(stage) >= Needs(call)
  }

  predicate RecordedCall(s: State, ref: string, call: Call) {
    call.e in s.entries && s.entries[call.e].ref == ref && Reached(s.entries[call.e].stage, call)
  }

  predicate Recorded(s: State, ref: string) {
    forall i :: 0 <= i < |LogOf(s, ref)| ==> RecordedCall(s, ref, LogOf(s, ref)[i])
  }

  predicate SameKind(a: Call, b: Call) {
    && a.e == b.e
    && (a.PrepareBegins? <==> b.PrepareBegins?) && (a.PrepareEnds? <==> b.PrepareEnds?)
    && (a.ReleaseBegins? <==> b.ReleaseBegins?)
  }

  // No entry is prepared twice, nor released twice.
  predicate Once(log: seq<Call>) {
    forall i, j :: 0 <= i < j < |log| ==> !SameKind(log[i], log[j])
  }

  predicate RefOk(s: State, ref: string) {
    && QuietUnheld(s, ref)
    && (ref in s.refs ==> s.refs[ref] in s.entries && s.entries[s.refs[ref]].ref == ref)
  }

  predicate HistoryOk(s: State, ref: string) {
    Recorded(s, ref) && Once(LogOf(s, ref))
  }

  ghost predicate Inv(s: State) {
    && (forall e :: e in s.entries ==> EntryOk(s, e))
    && (forall ref :: RefOk(s, ref))
    && (forall ref :: HistoryOk(s, ref))
  }

  lemma FollowOne(log: seq<Call>, call: Call)
    ensures Follow(log + [call]) == Observe(Follow(log), call)
  {
    assert (log + [call])[..|log|] == log;
  }

  // Only entry e and its ref are different, no further back than it was, with
  // at most the one call made for it.
  ghost predicate Frame(s: State, t: State, e: nat, made: Option<Call>) {
    && e in t.entries && (forall f :: f in t.entries && f != e ==> f in s.entries && t.entries[f] == s.entries[f])
    && (forall f :: f in s.entries ==> f in t.entries)
    && (forall c :: c in s.joined ==> c in t.joined && t.joined[c] == s.joined[c])
    && (forall ref :: ref != t.entries[e].ref ==> SameAt(s, t, ref))
    && (forall f :: f != e ==> (Holds(t, t.entries[e].ref, f) <==> Holds(s, t.entries[e].ref, f)))
    && LogOf(t, t.entries[e].ref) == LogOf(s, t.entries[e].ref) + (if made.Some? then [made.value] else [])
    && (e in s.entries ==> s.entries[e].ref == t.entries[e].ref && Progress(s.entries[e].stage) <= Progress(t.entries[e].stage))
    && (made.Some? ==>
          && made.value.e == e && Holds(s, t.entries[e].ref, e) && e in s.entries
          && !Reached(s.entries[e].stage, made.value) && Reached(t.entries[e].stage, made.value))
  }

  predicate SameAt(s: State, t: State, ref: string) {
    && LogOf(t, ref) == LogOf(s, ref) && (ref in t.refs <==> ref in s.refs)
    && (ref in s.refs ==> t.refs[ref] == s.refs[ref])
  }

  // An entry says nothing of its ref's calls unless it is the one held.
  lemma StillAgrees(s: State, t: State, f: nat)
    requires f in s.entries && f in t.entries && t.entries[f] == s.entries[f] && Agrees(s, f)
    requires Holds(t, s.entries[f].ref, f) <==> Holds(s, s.entries[f].ref, f)
    requires Holds(s, s.entries[f].ref, f) ==> LogOf(t, s.entries[f].ref) == LogOf(s, s.entries[f].ref)
    ensures Agrees(t, f)
  {
  }

  // Within such a frame everything else is as it was.
  lemma OtherEntryKeeps(s: State, t: State, e: nat, made: Option<Call>, f: nat)
    requires Inv(s) && Frame(s, t, e, made) && f in t.entries && f != e
    ensures EntryOk(t, f)
  {
    assert EntryOk(s, f);
    var ref := s.entries[f].ref;
    if ref != t.entries[e].ref {
      assert SameAt(s, t, ref);
    } else {
      assert LogOf(s, ref) + [] == LogOf(s, ref);
    }
    StillAgrees(s, t, f);
  }

  lemma OtherRefKeeps(s: State, t: State, e: nat, made: Option<Call>, ref: string)
    requires Inv(s) && Frame(s, t, e, made) && ref != t.entries[e].ref
    ensures RefOk(t, ref) && HistoryOk(t, ref)
  {
    assert SameAt(s, t, ref) && RefOk(s, ref) && HistoryOk(s, ref);
    StillRecorded(s, t, e, made, ref);
  }

  lemma StillRecorded(s: State, t: State, e: nat, made: Option<Call>, ref: string)
    requires Frame(s, t, e, made) && Recorded(s, ref)
    ensures forall i :: 0 <= i < |LogOf(s, ref)| ==> RecordedCall(t, ref, LogOf(s, ref)[i])
  {
    forall i | 0 <= i < |LogOf(s, ref)| ensures RecordedCall(t, ref, LogOf(s, ref)[i]) {
      assert RecordedCall(s, ref, LogOf(s, ref)[i]);
    }
  }

  // The call a step makes is one its entry had not come far enough for.
  lemma OwnHistoryKeeps(s: State, t: State, e: nat, made: Option<Call>)
    requires Inv(s) && Frame(s, t, e, made)
    ensures HistoryOk(t, t.entries[e].ref)
  {
    var ref := t.entries[e].ref;
    var log, more := LogOf(s, ref), LogOf(t, ref);
    assert HistoryOk(s, ref);
    StillRecorded(s, t, e, made, ref);
    forall i, j | 0 <= i < j < |more| ensures !SameKind(more[i], more[j]) {
      assert more[i] == log[i];
      if j < |log| {
        assert more[j] == log[j];
      } else {
        assert RecordedCall(s, ref, log[i]);
        assert SameKind(log[i], more[j]) ==> Needs(log[i]) == Needs(more[j]);
      }
    }
    forall i | 0 <= i < |more| ensures RecordedCall(t, ref, more[i]) {
      assert i < |log| ==> more[i] == log[i];
    }
  }

  lemma EntriesKeep(s: State, t: State, e: nat, made: Option<Call>)
    requires Inv(s) && Frame(s, t, e, made) && EntryOk(t, e)
    ensures forall f :: f in t.entries ==> EntryOk(t, f)
  {
    forall f | f in t.entries ensures EntryOk(t, f) {
      if f != e { OtherEntryKeeps(s, t, e, made, f); }
    }
  }

  lemma RefsKeep(s: State, t: State, e: nat, made: Option<Call>)
    requires Inv(s) && Frame(s, t, e, made) && RefOk(t, t.entries[e].ref)
    ensures forall ref :: RefOk(t, ref)
  {
    forall ref ensures RefOk(t, ref) {
      if ref != t.entries[e].ref { OtherRefKeeps(s, t, e, made, ref); }
    }
  }

  lemma HistoriesKeep(s: State, t: State, e: nat, made: Option<Call>)
    requires Inv(s) && Frame(s, t, e, made)
    ensures forall ref :: HistoryOk(t, ref)
  {
    OwnHistoryKeeps(s, t, e, made);
    forall ref ensures HistoryOk(t, ref) {
      if ref != t.entries[e].ref { OtherRefKeeps(s, t, e, made, ref); }
    }
  }

  lemma FrameKeeps(s: State, t: State, e: nat, made: Option<Call>)
    requires Inv(s) && Frame(s, t, e, made) && EntryOk(t, e) && RefOk(t, t.entries[e].ref)
    ensures Inv(t)
  {
    EntriesKeep(s, t, e, made);
    RefsKeep(s, t, e, made);
    HistoriesKeep(s, t, e, made);
  }

  // ----- Every step keeps it -----

  // A step about an entry that stays held or unheld as it was, making a call.
  lemma LoggedKeeps(s: State, e: nat, stage: Stage, call: Call)
    requires Inv(s) && e in s.entries && call.e == e && Holds(s, s.entries[e].ref, e)
    requires Progress(s.entries[e].stage) <= Progress(stage)
    requires !Reached(s.entries[e].stage, call) && Reached(stage, call)
    requires EntryOk(Logged(Staged(s, e, stage), e, call), e) && RefOk(Logged(Staged(s, e, stage), e, call), s.entries[e].ref)
    ensures Inv(Logged(Staged(s, e, stage), e, call))
  {
    FrameKeeps(s, Logged(Staged(s, e, stage), e, call), e, Some(call));
  }

  lemma AskKeeps(s: State, e: nat)
    requires Inv(s) && e in s.entries && s.entries[e].stage == Fresh
    ensures Inv(Logged(Staged(s, e, Preparing), e, PrepareBegins(e)))
  {
    assert EntryOk(s, e) && RefOk(s, s.entries[e].ref);
    FollowOne(LogOf(s, s.entries[e].ref), PrepareBegins(e));
    LoggedKeeps(s, e, Preparing, PrepareBegins(e));
  }

  lemma ReleaseKeeps(s: State, e: nat)
    requires Inv(s) && e in s.entries && s.entries[e].stage == Retiring
    ensures Inv(Logged(Staged(s, e, Releasing), e, ReleaseBegins(e)))
  {
    assert EntryOk(s, e) && RefOk(s, s.entries[e].ref);
    FollowOne(LogOf(s, s.entries[e].ref), ReleaseBegins(e));
    LoggedKeeps(s, e, Releasing, ReleaseBegins(e));
  }

  lemma GiveBackKeeps(s: State, e: nat)
    requires Inv(s) && e in s.entries && s.entries[e].stage == Releasing
    ensures Inv(Logged(Staged(s, e, Returned), e, ReleaseEnds(e)))
  {
    assert EntryOk(s, e) && RefOk(s, s.entries[e].ref);
    FollowOne(LogOf(s, s.entries[e].ref), ReleaseEnds(e));
    LoggedKeeps(s, e, Returned, ReleaseEnds(e));
  }

  lemma SettleKeeps(s: State, e: nat, installed: bool)
    requires Inv(s) && e in s.entries && s.entries[e].stage.Settling?
    ensures Inv(Settles(s, e, installed))
  {
    assert EntryOk(s, e) && RefOk(s, s.entries[e].ref);
    FollowOne(LogOf(s, s.entries[e].ref), PrepareEnds(e, installed));
    FrameKeeps(s, Settles(s, e, installed), e, Some(PrepareEnds(e, installed)));
  }

  lemma CreateKeeps(s: State, c: nat, ref: string, e: nat)
    requires Inv(s) && c !in s.joined && ref !in s.refs && e !in s.entries
    ensures Inv(Creates(s, c, ref, e))
  {
    assert RefOk(s, ref);
    FrameKeeps(s, Creates(s, c, ref, e), e, None);
  }

  lemma PublishKeeps(s: State, ref: string, e: nat)
    requires Inv(s) && ref !in s.refs && e !in s.entries
    ensures Inv(Publishes(s, ref, e))
  {
    assert RefOk(s, ref);
    FrameKeeps(s, Publishes(s, ref, e), e, None);
  }

  lemma JoinKeeps(s: State, c: nat, ref: string)
    requires Inv(s) && Enabled(s, Join(c, ref))
    ensures Inv(Joins(s, c, s.refs[ref]))
  {
    var e := s.refs[ref];
    assert EntryOk(s, e) && RefOk(s, ref);
    FrameKeeps(s, Joins(s, c, e), e, None);
  }

  lemma LeaveKeeps(s: State, c: nat, e: nat)
    requires Inv(s) && e in s.entries && c in s.entries[e].members && Answered(s.entries[e].stage)
    ensures Inv(Leaves(s, c, e))
  {
    assert EntryOk(s, e) && RefOk(s, s.entries[e].ref);
    FrameKeeps(s, Leaves(s, c, e), e, None);
  }

  lemma DropKeeps(s: State, e: nat)
    requires Inv(s) && e in s.entries && s.entries[e].stage == Returned
    ensures Inv(Forgotten(Staged(s, e, Over), e))
  {
    assert EntryOk(s, e) && RefOk(s, s.entries[e].ref);
    FrameKeeps(s, Forgotten(Staged(s, e, Over), e), e, None);
  }

  lemma AnswerKeeps(s: State, e: nat, ok: bool)
    requires Inv(s) && e in s.entries && s.entries[e].stage == Preparing
    ensures Inv(Staged(s, e, Settling(ok)))
  {
    assert EntryOk(s, e) && RefOk(s, s.entries[e].ref);
    FrameKeeps(s, Staged(s, e, Settling(ok)), e, None);
  }

  // A published entry is nobody's duty: its ref forgets it, and that is all.
  lemma WithdrawFrames(s: State, ref: string)
    requires Inv(s) && Enabled(s, Withdraw(ref))
    ensures Frame(s, s.(refs := s.refs - {ref}), s.refs[ref], None)
  {
    assert RefOk(s, ref);
    var t := s.(refs := s.refs - {ref});
    assert LogOf(t, ref) == LogOf(s, ref) == LogOf(s, ref) + [];
  }

  lemma WithdrawnOk(s: State, ref: string)
    requires Inv(s) && Enabled(s, Withdraw(ref))
    ensures EntryOk(s.(refs := s.refs - {ref}), s.refs[ref]) && RefOk(s.(refs := s.refs - {ref}), ref)
  {
    assert RefOk(s, ref) && EntryOk(s, s.refs[ref]);
  }

  lemma WithdrawKeeps(s: State, ref: string)
    requires Inv(s) && Enabled(s, Withdraw(ref))
    ensures Inv(s.(refs := s.refs - {ref}))
  {
    assert RefOk(s, ref);
    WithdrawFrames(s, ref);
    WithdrawnOk(s, ref);
    FrameKeeps(s, s.(refs := s.refs - {ref}), s.refs[ref], None);
  }

  lemma CannotSkip(s: State, e: nat)
    requires Inv(s)
    ensures !Enabled(s, Skip(e))
  {
    assert e in s.entries ==> EntryOk(s, e);
  }

  lemma StepKeeps(s: State, step: Step)
    requires Inv(s) && Enabled(s, step)
    ensures Inv(After(s, step))
  {
    match step
    case Create(c, ref, e) => CreateKeeps(s, c, ref, e);
    case Join(c, ref) => JoinKeeps(s, c, ref);
    case Ask(e) => AskKeeps(s, e);
    case Answer(e, ok) => AnswerKeeps(s, e, ok);
    case Settle(e, allowed) => SettleKeeps(s, e, s.entries[e].stage.ok && allowed);
    case Leave(c) => LeaveKeeps(s, c, s.joined[c]);
    case Release(e) => ReleaseKeeps(s, e);
    case Skip(e) => CannotSkip(s, e);
    case GiveBack(e) => GiveBackKeeps(s, e);
    case Drop(e) => DropKeeps(s, e);
    case Publish(ref, e) => PublishKeeps(s, ref, e);
    case Withdraw(ref) => WithdrawKeeps(s, ref);
  }

  lemma {:induction false} RunKeeps(s: State, steps: seq<Step>)
    requires Inv(s) && Run(s, steps)
    ensures Inv(Final(s, steps))
    decreases |steps|
  {
    if steps != [] {
      StepKeeps(s, steps[0]);
      RunKeeps(After(s, steps[0]), steps[1..]);
    }
  }

  // ----- What it means -----

  // Whatever order the connections, answers and releases of all generations of
  // a ref come in, the provider's calls for it never overlap: it is asked to
  // prepare only when it has nothing of the ref's, and given back only what it
  // prepared and was used.
  lemma NeverOverlap(steps: seq<Step>, ref: string)
    requires Run(Start, steps)
    ensures Follow(LogOf(Final(Start, steps), ref)) != Wrong
    ensures var log := LogOf(Final(Start, steps), ref);
            forall i, j :: 0 <= i < j < |log| && log[i].e == log[j].e ==>
              && !(log[i].PrepareBegins? && log[j].PrepareBegins?) && !(log[i].PrepareEnds? && log[j].PrepareEnds?)
              && !(log[i].ReleaseBegins? && log[j].ReleaseBegins?) && !(log[i].ReleaseEnds? && log[j].ReleaseEnds?)
  {
    RunKeeps(Start, steps);
    var s := Final(Start, steps);
    assert RefOk(s, ref) && HistoryOk(s, ref);
    assert Once(LogOf(s, ref));
    assert ref in s.refs ==> EntryOk(s, s.refs[ref]);
  }

  // What that says of any one call: the one before it is the one it answers,
  // and a preparation begins only where the last one failed or was given back.
  lemma {:induction false} CallFollows(log: seq<Call>, i: nat)
    requires Follow(log) != Wrong && i < |log|
    ensures log[i].PrepareBegins? ==> i == 0 || log[i - 1].ReleaseEnds? || (log[i - 1].PrepareEnds? && !log[i - 1].installed)
    ensures log[i].PrepareEnds? ==> i > 0 && log[i - 1] == PrepareBegins(log[i].e)
    ensures log[i].ReleaseBegins? ==> i > 0 && log[i - 1] == PrepareEnds(log[i].e, true)
    ensures log[i].ReleaseEnds? ==> i > 0 && log[i - 1] == ReleaseBegins(log[i].e)
    decreases |log|
  {
    var before := log[..|log| - 1];
    assert Follow(before) != Wrong;
    if i < |before| {
      CallFollows(before, i);
    } else if before != [] {
      assert Follow(before) == Observe(Follow(before[..|before| - 1]), before[|before| - 1]);
    }
  }

  // Data goes back only after the last member of its entry has left, and none
  // joins it again; and it does not go back while it is still held by anyone.
  lemma ReleasedWhenEmpty(steps: seq<Step>, ref: string, i: nat)
    requires Run(Start, steps) && i < |LogOf(Final(Start, steps), ref)|
    requires LogOf(Final(Start, steps), ref)[i].ReleaseBegins?
    ensures var s := Final(Start, steps);
            var e := LogOf(s, ref)[i].e;
            && e in s.entries && s.entries[e].members == {} && !s.entries[e].published
            && forall c: nat :: Enabled(s, Join(c, ref)) ==> s.refs[ref] != e
  {
    RunKeeps(Start, steps);
    var s := Final(Start, steps);
    assert HistoryOk(s, ref);
    assert EntryOk(s, LogOf(s, ref)[i].e);
  }

  // An entry whose members have all gone was prepared, so its release is never
  // skipped, and it still stands in the way of another until that is done.
  lemma NeverSkipped(steps: seq<Step>, e: nat)
    requires Run(Start, steps)
    ensures !Enabled(Final(Start, steps), Skip(e))
    ensures var s := Final(Start, steps);
            e in s.entries && (s.entries[e].stage.Retiring? || s.entries[e].stage.Releasing? || s.entries[e].stage.Returned?) ==>
              forall step :: Enabled(s, step) && (step.Create? || step.Publish?) ==> step.ref != s.entries[e].ref
  {
    RunKeeps(Start, steps);
    var s := Final(Start, steps);
    assert e in s.entries ==> EntryOk(s, e);
  }

  // ----- Nothing is stuck -----

  lemma {:induction false} RunMore(s: State, steps: seq<Step>, step: Step)
    requires Run(s, steps) && Enabled(Final(s, steps), step)
    ensures Run(s, steps + [step]) && Final(s, steps + [step]) == After(Final(s, steps), step)
    decreases |steps|
  {
    if steps == [] {
      assert (steps + [step])[1..] == [];
    } else {
      RunMore(After(s, steps[0]), steps[1..], step);
      assert (steps + [step])[1..] == steps[1..] + [step];
    }
  }

  // One more step of a run that keeps what every reachable state has.
  lemma Onward(s: State, steps: seq<Step>, step: Step) returns (more: seq<Step>)
    requires Inv(s) && Run(s, steps) && Enabled(Final(s, steps), step)
    ensures more == steps + [step] && Run(s, more) && Final(s, more) == After(Final(s, steps), step) && Inv(Final(s, more))
  {
    more := steps + [step];
    RunMore(s, steps, step);
    RunKeeps(s, more);
  }

  // A preparation can always be brought to an end, one way or the other, with
  // everybody still there.
  lemma Settleable(s: State, e: nat, ok: bool) returns (steps: seq<Step>)
    requires Inv(s) && e in s.entries && s.entries[e].stage in {Fresh, Preparing}
    ensures |steps| <= 3 && Run(s, steps) && Inv(Final(s, steps)) && e in Final(s, steps).entries
    ensures var t := Final(s, steps);
            && t.entries[e] == s.entries[e].(stage := if ok then Ready else Doomed, prepared := ok)
            && t.joined == s.joined && t.refs == if ok then s.refs else s.refs - {s.entries[e].ref}
  {
    assert EntryOk(s, e);
    steps := [];
    if s.entries[e].stage == Fresh { steps := Onward(s, steps, Ask(e)); }
    steps := Onward(s, steps, Answer(e, ok));
    steps := Onward(s, steps, Settle(e, true));
  }

  // Whoever has joined can leave in the end, whatever their entry is waiting for.
  lemma CanLeave(s: State, c: nat, e: nat) returns (steps: seq<Step>)
    requires Inv(s) && e in s.entries && c in s.entries[e].members
    ensures |steps| <= 4 && Run(s, steps) && e in Final(s, steps).entries && c !in Final(s, steps).entries[e].members
  {
    assert EntryOk(s, e);
    steps := [];
    if s.entries[e].stage in {Fresh, Preparing} {
      steps := Settleable(s, e, false);
    } else if s.entries[e].stage.Settling? {
      steps := Onward(s, steps, Settle(e, true));
    }
    steps := Onward(s, steps, Leave(c));
  }

  // With every member gone, what was prepared is given back and the ref is free.
  lemma {:induction false} AllLeave(s: State, e: nat) returns (steps: seq<Step>)
    requires Inv(s) && e in s.entries && s.entries[e].stage == Ready && !s.entries[e].published
    ensures Run(s, steps) && Inv(Final(s, steps)) && Freed(Final(s, steps), s.entries[e].ref)
    decreases |s.entries[e].members|
  {
    assert EntryOk(s, e);
    var c :| c in s.entries[e].members;
    var t := After(s, Leave(c));
    LeaveKeeps(s, c, e);
    var rest;
    if t.entries[e].stage == Ready { rest := AllLeave(t, e); } else { rest := Retired(t, e); }
    steps := [Leave(c)] + rest;
    assert steps[1..] == rest;
  }

  predicate Freed(s: State, ref: string) {
    ref !in s.refs && Follow(LogOf(s, ref)) == Idle
  }

  lemma Retired(s: State, e: nat) returns (steps: seq<Step>)
    requires Inv(s) && e in s.entries && s.entries[e].stage in {Retiring, Releasing, Returned}
    ensures Run(s, steps) && Inv(Final(s, steps)) && Freed(Final(s, steps), s.entries[e].ref)
  {
    assert EntryOk(s, e);
    steps := [];
    if s.entries[e].stage == Retiring { steps := Onward(s, steps, Release(e)); }
    if Final(s, steps).entries[e].stage == Releasing { steps := Onward(s, steps, GiveBack(e)); }
    steps := Onward(s, steps, Drop(e));
    assert RefOk(Final(s, steps), s.entries[e].ref);
  }

  // From any reachable state, a ref that is held can be brought to where nobody
  // holds it and the provider has nothing of it left to do or to get back.
  lemma CanBeFreed(steps: seq<Step>, ref: string) returns (more: seq<Step>)
    requires Run(Start, steps) && ref in Final(Start, steps).refs
    ensures Run(Final(Start, steps), more) && ref !in Final(Final(Start, steps), more).refs
    ensures Follow(LogOf(Final(Final(Start, steps), more), ref)) == Idle
  {
    RunKeeps(Start, steps);
    var s := Final(Start, steps);
    assert RefOk(s, ref);
    var e := s.refs[ref];
    assert EntryOk(s, e);
    var entry := s.entries[e];
    if entry.published {
      more := Onward(s, [], Withdraw(ref));
    } else if entry.stage in {Fresh, Preparing} {
      more := Settleable(s, e, false);
    } else if entry.stage.Settling? {
      more := Onward(s, [], Settle(e, false));
    } else if entry.stage == Ready {
      more := AllLeave(s, e);
    } else {
      more := Retired(s, e);
    }
    assert RefOk(Final(s, more), ref);
  }

  // A new connection is taken at once, to the entry held or to one of its own,
  // unless the ref is being given back.
  lemma CanConnect(steps: seq<Step>, c: nat, ref: string, e: nat)
    requires Run(Start, steps)
    requires var s := Final(Start, steps); c !in s.joined && e !in s.entries
    ensures var s := Final(Start, steps);
            Enabled(s, Create(c, ref, e)) || Enabled(s, Join(c, ref)) <==>
              ref in s.refs ==> s.refs[ref] in s.entries && s.entries[s.refs[ref]].stage !in {Retiring, Releasing, Returned}
  {
  }

  // A connection is a member of no entry but the one it joined.
  lemma OneEntry(steps: seq<Step>, c: nat, e: nat)
    requires Run(Start, steps)
    ensures var s := Final(Start, steps);
            e in s.entries && c in s.entries[e].members ==> c in s.joined && s.joined[c] == e
  {
    RunKeeps(Start, steps);
    assert e in Final(Start, steps).entries ==> EntryOk(Final(Start, steps), e);
  }
}
